/** Small shared types. */
module Prelude {
  datatype Option<+T> = None | Some(value: T)

  datatype Result<+T, +E> = Ok(value: T) | Err(error: E)

  lemma SubsetSize<T>(a: set<T>, b: set<T>)
    requires a <= b
    ensures |a| <= |b|
  {
    assert b == a + (b - a);
  }
}

/** JavaScript's `Array.prototype.sort`: a stable sort by a total preorder. */
module StableSort {

  ghost predicate TotalPreorder<T(!new)>(leq: (T, T) -> bool) {
    && (forall x, y :: leq(x, y) || leq(y, x))
    && (forall x, y, z :: leq(x, y) && leq(y, z) ==> leq(x, z))
  }

  ghost predicate Sorted<T>(s: seq<T>, leq: (T, T) -> bool) {
    forall i, j :: 0 <= i < j < |s| ==> leq(s[i], s[j])
  }

  /** Puts `x`, which came before all of `s`, in front of its equals. */
  function Insert<T>(x: T, s: seq<T>, leq: (T, T) -> bool): (r: seq<T>)
    ensures |r| == |s| + 1
    ensures multiset(r) == multiset{x} + multiset(s)
  {
    if |s| == 0 || leq(x, s[0]) then [x] + s
    else
      assert s == [s[0]] + s[1..];
      [s[0]] + Insert(x, s[1..], leq)
  }

  function Sort<T>(s: seq<T>, leq: (T, T) -> bool): (r: seq<T>)
    ensures |r| == |s|
    ensures multiset(r) == multiset(s)
  {
    if |s| == 0 then []
    else
      assert s == [s[0]] + s[1..];
      Insert(s[0], Sort(s[1..], leq), leq)
  }

  lemma {:induction false} InsertSorts<T(!new)>(x: T, s: seq<T>, leq: (T, T) -> bool)
    requires TotalPreorder(leq) && Sorted(s, leq)
    ensures Sorted(Insert(x, s, leq), leq)
  {
    if |s| == 0 || leq(x, s[0]) {
    } else {
      InsertSorts(x, s[1..], leq);
      var r := Insert(x, s[1..], leq);
      forall k | 0 <= k < |r| ensures leq(s[0], r[k]) {
        assert r[k] in multiset(r);
        assert r[k] == x || r[k] in s[1..];
      }
    }
  }

  lemma {:induction false} SortSorts<T(!new)>(s: seq<T>, leq: (T, T) -> bool)
    requires TotalPreorder(leq)
    ensures Sorted(Sort(s, leq), leq)
  {
    if |s| != 0 {
      SortSorts(s[1..], leq);
      InsertSorts(s[0], Sort(s[1..], leq), leq);
    }
  }

  predicate Tied<T>(x: T, y: T, leq: (T, T) -> bool) {
    leq(x, y) && leq(y, x)
  }

  /** The elements that tie with `probe`, in the order they stand. */
  function Ties<T>(s: seq<T>, probe: T, leq: (T, T) -> bool): seq<T> {
    if |s| == 0 then []
    else (if Tied(s[0], probe, leq) then [s[0]] else []) + Ties(s[1..], probe, leq)
  }

  lemma TiesOfCons<T>(x: T, s: seq<T>, probe: T, leq: (T, T) -> bool)
    ensures Ties([x] + s, probe, leq) == (if Tied(x, probe, leq) then [x] else []) + Ties(s, probe, leq)
  {
    assert ([x] + s)[1..] == s;
  }

  lemma NotBothTied<T(!new)>(x: T, y: T, probe: T, leq: (T, T) -> bool)
    requires TotalPreorder(leq) && !leq(x, y)
    ensures !(Tied(x, probe, leq) && Tied(y, probe, leq))
  {
  }

  lemma {:induction false} InsertKeepsTies<T(!new)>(x: T, s: seq<T>, probe: T, leq: (T, T) -> bool)
    requires TotalPreorder(leq)
    ensures Ties(Insert(x, s, leq), probe, leq)
         == (if Tied(x, probe, leq) then [x] else []) + Ties(s, probe, leq)
    decreases |s|
  {
    if |s| == 0 || leq(x, s[0]) {
      TiesOfCons(x, s, probe, leq);
    } else {
      var rest := s[1..];
      InsertKeepsTies(x, rest, probe, leq);
      TiesOfCons(s[0], Insert(x, rest, leq), probe, leq);
      NotBothTied(x, s[0], probe, leq);
    }
  }

  /** Stability: equal elements keep their relative order. */
  lemma {:induction false} SortIsStable<T(!new)>(s: seq<T>, probe: T, leq: (T, T) -> bool)
    requires TotalPreorder(leq)
    ensures Ties(Sort(s, leq), probe, leq) == Ties(s, probe, leq)
  {
    if |s| != 0 {
      SortIsStable(s[1..], probe, leq);
      InsertKeepsTies(s[0], Sort(s[1..], leq), probe, leq);
    }
  }

  /** No two elements share a key. */
  ghost predicate DistinctBy<T, K>(s: seq<T>, key: T -> K) {
    forall i, j :: 0 <= i < j < |s| ==> key(s[i]) != key(s[j])
  }

  lemma InsertHas<T(!new)>(x: T, s: seq<T>, leq: (T, T) -> bool)
    ensures forall y :: y in Insert(x, s, leq) <==> y == x || y in s
  {
    var r := Insert(x, s, leq);
    forall y ensures y in r <==> y == x || y in s {
      assert y in r <==> y in multiset(r);
    }
  }

  lemma SortHas<T(!new)>(s: seq<T>, leq: (T, T) -> bool)
    ensures forall y :: y in Sort(s, leq) <==> y in s
  {
    forall y ensures y in Sort(s, leq) <==> y in s {
      assert y in Sort(s, leq) <==> y in multiset(Sort(s, leq));
    }
  }

  lemma {:induction false} InsertKeepsDistinct<T(!new), K>(x: T, s: seq<T>, leq: (T, T) -> bool, key: T -> K)
    requires DistinctBy(s, key) && forall y :: y in s ==> key(y) != key(x)
    ensures DistinctBy(Insert(x, s, leq), key)
    decreases |s|
  {
    if |s| > 0 && !leq(x, s[0]) {
      var rest := Insert(x, s[1..], leq);
      InsertKeepsDistinct(x, s[1..], leq, key);
      InsertHas(x, s[1..], leq);
      forall j | 0 <= j < |rest| ensures key(rest[j]) != key(s[0]) {
        assert rest[j] in rest;
      }
    }
  }

  lemma {:induction false} SortKeepsDistinct<T(!new), K>(s: seq<T>, leq: (T, T) -> bool, key: T -> K)
    requires DistinctBy(s, key)
    ensures DistinctBy(Sort(s, leq), key)
  {
    if |s| > 0 {
      SortKeepsDistinct(s[1..], leq, key);
      SortHas(s[1..], leq);
      forall y | y in s[1..] ensures key(y) != key(s[0]) {
        var j :| 0 <= j < |s[1..]| && s[1..][j] == y;
        assert s[j + 1] == y;
      }
      InsertKeepsDistinct(s[0], Sort(s[1..], leq), leq, key);
    }
  }
}
