/**
 * Sorting with `localeCompare`. The collation itself is a parameter: `le(a, b)` stands for
 * `a.localeCompare(b) <= 0` and is only assumed to be a total preorder. `Array.prototype.sort`
 * is stable, and so is the insertion sort below (`SortByStable`).
 */
module Collation {
  /** `le` orders every pair of strings one way or the other, transitively. */
  ghost predicate TotalPreorder(le: (string, string) -> bool) {
    && (forall a, b :: le(a, b) || le(b, a))
    && (forall a, b, c :: le(a, b) && le(b, c) ==> le(a, c))
  }

  /** Each element's key is at most the next one's. */
  predicate SortedBy<T>(s: seq<T>, key: T -> string, le: (string, string) -> bool) {
    forall i :: 0 < i < |s| ==> le(key(s[i - 1]), key(s[i]))
  }

  /** No two elements have the same `id`. */
  predicate DistinctBy<T>(s: seq<T>, id: T -> string) {
    forall i, j :: 0 <= i < j < |s| ==> id(s[i]) != id(s[j])
  }

  /** Put `x` before the first element it does not sort after, so that equal keys keep their order. */
  function Insert<T>(x: T, s: seq<T>, key: T -> string, le: (string, string) -> bool): (r: seq<T>)
    ensures |r| == |s| + 1
    ensures multiset(r) == multiset(s) + multiset{x}
    ensures r[0] == x || (s != [] && r[0] == s[0])
  {
    if s == [] || le(key(x), key(s[0])) then [x] + s
    else
      assert s == [s[0]] + s[1..];
      [s[0]] + Insert(x, s[1..], key, le)
  }

  /** `rows.sort((a, b) => key(a).localeCompare(key(b)))`; the result is a permutation of `s`. */
  function SortBy<T>(s: seq<T>, key: T -> string, le: (string, string) -> bool): (r: seq<T>)
    ensures |r| == |s|
    ensures multiset(r) == multiset(s)
  {
    if s == [] then []
    else
      assert s == [s[0]] + s[1..];
      Insert(s[0], SortBy(s[1..], key, le), key, le)
  }

  lemma {:induction false} InsertSorted<T>(x: T, s: seq<T>, key: T -> string, le: (string, string) -> bool)
    requires TotalPreorder(le) && SortedBy(s, key, le)
    ensures SortedBy(Insert(x, s, key, le), key, le)
  {
    if s != [] && !le(key(x), key(s[0])) {
      assert le(key(s[0]), key(x));
      var t := Insert(x, s[1..], key, le);
      assert SortedBy(s[1..], key, le) by {
        forall i | 0 < i < |s[1..]| ensures le(key(s[1..][i - 1]), key(s[1..][i])) {
          assert s[1..][i - 1] == s[i] && s[1..][i] == s[i + 1];
        }
      }
      InsertSorted(x, s[1..], key, le);
      var r := [s[0]] + t;
      assert r == Insert(x, s, key, le);
      assert le(key(s[0]), key(t[0])) by {
        if t[0] != x {
          assert t[0] == s[1];
        }
      }
      forall i | 0 < i < |r| ensures le(key(r[i - 1]), key(r[i])) {
        if i > 1 {
          assert r[i - 1] == t[i - 2] && r[i] == t[i - 1];
        }
      }
    }
  }

  /** The sorted rows are in ascending order of their keys. */
  lemma {:induction false} SortBySorted<T>(s: seq<T>, key: T -> string, le: (string, string) -> bool)
    requires TotalPreorder(le)
    ensures SortedBy(SortBy(s, key, le), key, le)
  {
    if s != [] {
      SortBySorted(s[1..], key, le);
      InsertSorted(s[0], SortBy(s[1..], key, le), key, le);
    }
  }

  lemma InsertMember<T>(x: T, s: seq<T>, key: T -> string, le: (string, string) -> bool, y: T)
    ensures y in Insert(x, s, key, le) <==> y == x || y in s
  {
    var r := Insert(x, s, key, le);
    assert y in r <==> y in multiset(r);
    assert y in s <==> y in multiset(s);
  }

  lemma DistinctCons<T>(h: T, t: seq<T>, id: T -> string)
    requires DistinctBy(t, id) && forall y :: y in t ==> id(y) != id(h)
    ensures DistinctBy([h] + t, id)
  {
    var r := [h] + t;
    forall i, j | 0 <= i < j < |r| ensures id(r[i]) != id(r[j]) {
      assert r[j] == t[j - 1];
      if i > 0 {
        assert r[i] == t[i - 1];
      }
    }
  }

  lemma DistinctTail<T>(s: seq<T>, id: T -> string)
    requires s != [] && DistinctBy(s, id)
    ensures DistinctBy(s[1..], id) && forall y :: y in s[1..] ==> id(y) != id(s[0])
  {
    forall i, j | 0 <= i < j < |s[1..]| ensures id(s[1..][i]) != id(s[1..][j]) {
      assert s[1..][i] == s[i + 1] && s[1..][j] == s[j + 1];
    }
    forall y | y in s[1..] ensures id(y) != id(s[0]) {
      var k :| 0 <= k < |s[1..]| && s[1..][k] == y;
      assert s[k + 1] == y;
    }
  }

  lemma {:induction false} InsertDistinct<T>(x: T, s: seq<T>, key: T -> string, le: (string, string) -> bool, id: T -> string)
    requires DistinctBy(s, id) && forall y :: y in s ==> id(y) != id(x)
    ensures DistinctBy(Insert(x, s, key, le), id)
  {
    if s == [] || le(key(x), key(s[0])) {
      DistinctCons(x, s, id);
    } else {
      DistinctTail(s, id);
      assert forall y :: y in s[1..] ==> y in s;
      InsertDistinct(x, s[1..], key, le, id);
      var t := Insert(x, s[1..], key, le);
      assert s[0] in s;
      forall y | y in t ensures id(y) != id(s[0]) {
        InsertMember(x, s[1..], key, le, y);
      }
      DistinctCons(s[0], t, id);
    }
  }

  /** Sorting keeps distinct ids distinct. */
  lemma {:induction false} SortByDistinct<T>(s: seq<T>, key: T -> string, le: (string, string) -> bool, id: T -> string)
    requires DistinctBy(s, id)
    ensures DistinctBy(SortBy(s, key, le), id)
  {
    if s != [] {
      DistinctTail(s, id);
      SortByDistinct(s[1..], key, le, id);
      var t := SortBy(s[1..], key, le);
      forall y | y in t ensures id(y) != id(s[0]) {
        SortByMember(s[1..], key, le, y);
      }
      InsertDistinct(s[0], t, key, le, id);
    }
  }

  lemma SortByMember<T>(s: seq<T>, key: T -> string, le: (string, string) -> bool, y: T)
    ensures y in SortBy(s, key, le) <==> y in s
  {
    var r := SortBy(s, key, le);
    assert y in r <==> y in multiset(r);
    assert y in s <==> y in multiset(s);
  }

  /** Sorting keeps exactly the elements it was given. */
  lemma SortByMembers<T>(s: seq<T>, key: T -> string, le: (string, string) -> bool)
    ensures forall y :: y in SortBy(s, key, le) <==> y in s
  {
    forall y ensures y in SortBy(s, key, le) <==> y in s {
      SortByMember(s, key, le, y);
    }
  }

  /** The elements of `s` whose key ties with `k` under `le`, in their order in `s`. */
  function Tied<T>(s: seq<T>, key: T -> string, le: (string, string) -> bool, k: string): seq<T> {
    if s == [] then []
    else (if le(key(s[0]), k) && le(k, key(s[0])) then [s[0]] else []) + Tied(s[1..], key, le, k)
  }

  lemma TiedCons<T>(x: T, s: seq<T>, key: T -> string, le: (string, string) -> bool, k: string)
    ensures Tied([x] + s, key, le, k) == (if le(key(x), k) && le(k, key(x)) then [x] else []) + Tied(s, key, le, k)
  {
    assert ([x] + s)[1..] == s;
  }

  /** Inserting `x` puts it after no element it ties with, so the tied elements keep their order. */
  lemma {:induction false} InsertTied<T>(x: T, s: seq<T>, key: T -> string, le: (string, string) -> bool, k: string)
    requires TotalPreorder(le)
    ensures Tied(Insert(x, s, key, le), key, le, k) == Tied([x] + s, key, le, k)
  {
    if s != [] && !le(key(x), key(s[0])) {
      var t := s[1..];
      assert s == [s[0]] + t;
      InsertTied(x, t, key, le, k);
      TiedCons(s[0], Insert(x, t, key, le), key, le, k);
      TiedCons(x, t, key, le, k);
      TiedCons(x, s, key, le, k);
      TiedCons(s[0], t, key, le, k);
      assert !(le(key(x), k) && le(k, key(x)) && le(key(s[0]), k) && le(k, key(s[0])));
    }
  }

  /** Sorting is stable: the elements whose keys tie keep the order they had in the input. */
  lemma {:induction false} SortByStable<T>(s: seq<T>, key: T -> string, le: (string, string) -> bool, k: string)
    requires TotalPreorder(le)
    ensures Tied(SortBy(s, key, le), key, le, k) == Tied(s, key, le, k)
  {
    if s != [] {
      SortByStable(s[1..], key, le, k);
      InsertTied(s[0], SortBy(s[1..], key, le), key, le, k);
      TiedCons(s[0], SortBy(s[1..], key, le), key, le, k);
      TiedCons(s[0], s[1..], key, le, k);
      assert s == [s[0]] + s[1..];
    }
  }
}
