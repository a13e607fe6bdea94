/** The edit distance behind "did you mean" suggestions for skill names
    (`src/brain/skills/store.ts`): one mutable row against the recursive
    definition, and the recursive definition against chains of single edits. */
module EditDistance {

  function Min(a: nat, b: nat): nat {
    if a <= b then a else b
  }

  /** The textbook recursion on the last code units of both strings. */
  function Distance<T(==)>(a: seq<T>, b: seq<T>): nat
    decreases |a| + |b|
  {
    if |a| == 0 then |b|
    else if |b| == 0 then |a|
    else
      Min(Min(Distance(a[..|a| - 1], b) + 1, Distance(a, b[..|b| - 1]) + 1),
          Distance(a[..|a| - 1], b[..|b| - 1]) + Change(a[|a| - 1], b[|b| - 1]))
  }

  function Change<T(==)>(x: T, y: T): nat {
    if x == y then 0 else 1
  }

  /** The row holds distances to prefixes of `b`: left of `j` already for the
      first `i` units of `a`, from `j` on still for the first `i - 1`. */
  ghost predicate RowInvariant<T>(row: seq<nat>, a: seq<T>, b: seq<T>, i: nat, j: nat)
    requires 1 <= i <= |a| && j <= |b| + 1
  {
    && |row| == |b| + 1
    && (forall k :: 0 <= k < j ==> row[k] == Distance(a[..i], b[..k]))
    && (forall k :: j <= k <= |b| ==> row[k] == Distance(a[..i - 1], b[..k]))
  }

  ghost predicate FinishedRow<T>(row: seq<nat>, a: seq<T>, b: seq<T>, i: nat)
    requires i <= |a|
  {
    |row| == |b| + 1 && forall k :: 0 <= k <= |b| ==> row[k] == Distance(a[..i], b[..k])
  }

  /** One cell of the table from its three neighbours extends the row. */
  lemma CellStep<T>(row: seq<nat>, a: seq<T>, b: seq<T>, i: nat, j: nat, diagonal: nat, cell: nat)
    requires 1 <= i <= |a| && 1 <= j <= |b|
    requires RowInvariant(row, a, b, i, j)
    requires diagonal == Distance(a[..i - 1], b[..j - 1])
    requires cell == Min(Min(row[j] + 1, row[j - 1] + 1), diagonal + Change(a[i - 1], b[j - 1]))
    ensures RowInvariant(row[j := cell], a, b, i, j + 1)
    ensures row[j] == Distance(a[..i - 1], b[..j])
  {
    assert a[..i][..i - 1] == a[..i - 1];
    assert b[..j][..j - 1] == b[..j - 1];
    assert cell == Distance(a[..i], b[..j]);
  }

  method Levenshtein<T(==)>(a: seq<T>, b: seq<T>) returns (d: nat)
    ensures d == Distance(a, b)
  {
    var row := new nat[|b| + 1](index => index);
    var i := 1;
    while i <= |a|
      invariant 1 <= i <= |a| + 1
      invariant FinishedRow(row[..], a, b, i - 1)
    {
      var diagonal := row[0];
      row[0] := i;
      var j := 1;
      while j <= |b|
        invariant 1 <= j <= |b| + 1
        invariant RowInvariant(row[..], a, b, i, j)
        invariant diagonal == Distance(a[..i - 1], b[..j - 1])
      {
        var above := row[j];
        var cell := Min(Min(row[j] + 1, row[j - 1] + 1), diagonal + Change(a[i - 1], b[j - 1]));
        CellStep(row[..], a, b, i, j, diagonal, cell);
        ghost var before := row[..];
        row[j] := cell;
        assert row[..] == before[j := cell];
        diagonal := above;
        j := j + 1;
      }
      i := i + 1;
    }
    assert a[..|a|] == a && b[..|b|] == b;
    d := row[|b|];
  }

  // ---------------------------------------------------------------------------
  // The distance is a metric.

  lemma {:induction false} LengthBounds<T>(a: seq<T>, b: seq<T>)
    ensures Distance(a, b) <= if |a| <= |b| then |b| else |a|
    ensures |a| <= |b| + Distance(a, b)
    ensures |b| <= |a| + Distance(a, b)
    decreases |a| + |b|
  {
    if |a| != 0 && |b| != 0 {
      LengthBounds(a[..|a| - 1], b);
      LengthBounds(a, b[..|b| - 1]);
      LengthBounds(a[..|a| - 1], b[..|b| - 1]);
    }
  }

  lemma {:induction false} Symmetric<T>(a: seq<T>, b: seq<T>)
    ensures Distance(a, b) == Distance(b, a)
    decreases |a| + |b|
  {
    if |a| != 0 && |b| != 0 {
      Symmetric(a[..|a| - 1], b);
      Symmetric(a, b[..|b| - 1]);
      Symmetric(a[..|a| - 1], b[..|b| - 1]);
    }
  }

  lemma {:induction false} ZeroIffEqual<T>(a: seq<T>, b: seq<T>)
    ensures Distance(a, b) == 0 <==> a == b
    decreases |a|
  {
    if |a| != 0 && |b| != 0 {
      ZeroIffEqual(a[..|a| - 1], b[..|b| - 1]);
      assert a == a[..|a| - 1] + [a[|a| - 1]];
      assert b == b[..|b| - 1] + [b[|b| - 1]];
    }
  }

  lemma {:induction false} Triangle<T>(a: seq<T>, b: seq<T>, c: seq<T>)
    ensures Distance(a, c) <= Distance(a, b) + Distance(b, c)
    decreases |a| + |b| + |c|
  {
    if |a| == 0 || |b| == 0 || |c| == 0 {
      LengthBounds(a, c);
      LengthBounds(a, b);
      LengthBounds(b, c);
    } else {
      var a', b', c' := a[..|a| - 1], b[..|b| - 1], c[..|c| - 1];
      Triangle(a', b, c);
      Triangle(a, b, c');
      Triangle(a, b', c);
      Triangle(a, b', c');
      Triangle(a', b', c);
      Triangle(a', b', c');
    }
  }

  // ---------------------------------------------------------------------------
  // The distance is the least number of single edits.

  ghost predicate Deletion<T(!new)>(a: seq<T>, b: seq<T>) {
    exists i :: 0 <= i < |a| && b == a[..i] + a[i + 1..]
  }

  ghost predicate Substitution<T(!new)>(a: seq<T>, b: seq<T>) {
    |a| == |b| && exists i :: 0 <= i < |a| && b == a[i := b[i]]
  }

  /** `b` is `a` with one code unit inserted, deleted or replaced. */
  ghost predicate OneEdit<T(!new)>(a: seq<T>, b: seq<T>) {
    Deletion(a, b) || Deletion(b, a) || Substitution(a, b)
  }

  ghost predicate EditChain<T(!new)>(chain: seq<seq<T>>, a: seq<T>, b: seq<T>) {
    && |chain| >= 1 && chain[0] == a && chain[|chain| - 1] == b
    && forall i :: 0 <= i < |chain| - 1 ==> OneEdit(chain[i], chain[i + 1])
  }

  /** A common suffix, behind `a[..m]` and `b[..k]`, costs nothing. */
  lemma {:induction false} CommonSuffix<T>(a: seq<T>, b: seq<T>, m: nat, k: nat)
    requires m <= |a| && k <= |b| && a[m..] == b[k..]
    ensures Distance(a, b) <= Distance(a[..m], b[..k])
    decreases |a|
  {
    assert |a[m..]| == |b[k..]|;
    if m == |a| {
      assert a[..m] == a && b[..k] == b;
    } else {
      var a', b' := a[..|a| - 1], b[..|b| - 1];
      assert a[|a| - 1] == a[m..][|a| - 1 - m] == b[k..][|b| - 1 - k] == b[|b| - 1];
      assert a'[m..] == a[m..][..|a| - 1 - m] && b'[k..] == b[k..][..|b| - 1 - k];
      assert a'[..m] == a[..m] && b'[..k] == b[..k];
      CommonSuffix(a', b', m, k);
    }
  }

  lemma LastDeletedCostsOne<T>(a: seq<T>, head: seq<T>)
    requires |a| > 0 && a[..|a| - 1] == head
    ensures Distance(a, head) <= 1
  {
    ZeroIffEqual(head, head);
  }

  lemma DeletionCostsOne<T(!new)>(a: seq<T>, b: seq<T>)
    requires Deletion(a, b)
    ensures Distance(a, b) <= 1
  {
    var i :| 0 <= i < |a| && b == a[..i] + a[i + 1..];
    CommonSuffix(a, b, i + 1, i);
    var head := b[..i];
    assert a[..i + 1][..i] == head;
    LastDeletedCostsOne(a[..i + 1], head);
  }

  lemma LastReplacedCostsOne<T>(a: seq<T>, b: seq<T>)
    requires |a| == |b| > 0 && a[..|a| - 1] == b[..|b| - 1]
    ensures Distance(a, b) <= 1
  {
    ZeroIffEqual(a[..|a| - 1], a[..|a| - 1]);
  }

  lemma SubstitutionCostsOne<T(!new)>(a: seq<T>, b: seq<T>)
    requires Substitution(a, b)
    ensures Distance(a, b) <= 1
  {
    var i :| 0 <= i < |a| && b == a[i := b[i]];
    CommonSuffix(a, b, i + 1, i + 1);
    assert a[..i + 1][..i] == b[..i + 1][..i];
    LastReplacedCostsOne(a[..i + 1], b[..i + 1]);
  }

  /** No chain of single edits is shorter than the distance. */
  lemma {:induction false} NoShorterChain<T(!new)>(chain: seq<seq<T>>, a: seq<T>, b: seq<T>)
    requires EditChain(chain, a, b)
    ensures Distance(a, b) <= |chain| - 1
    decreases |chain|
  {
    if |chain| == 1 {
      ZeroIffEqual(a, b);
    } else {
      var next := chain[1];
      assert OneEdit(chain[0], chain[1]);
      if Deletion(a, next) {
        DeletionCostsOne(a, next);
      } else if Deletion(next, a) {
        DeletionCostsOne(next, a);
        Symmetric(a, next);
      } else {
        SubstitutionCostsOne(a, next);
      }
      NoShorterChain(chain[1..], next, b);
      Triangle(a, next, b);
    }
  }

  ghost function AppendToEach<T>(chain: seq<seq<T>>, x: T): (r: seq<seq<T>>)
    ensures |r| == |chain| && forall i :: 0 <= i < |r| ==> r[i] == chain[i] + [x]
  {
    seq(|chain|, i requires 0 <= i < |chain| => chain[i] + [x])
  }

  lemma OneEditUnderSuffix<T(!new)>(a: seq<T>, b: seq<T>, x: T)
    requires OneEdit(a, b)
    ensures OneEdit(a + [x], b + [x])
  {
    if Deletion(a, b) {
      var i :| 0 <= i < |a| && b == a[..i] + a[i + 1..];
      assert b + [x] == (a + [x])[..i] + (a + [x])[i + 1..];
    } else if Deletion(b, a) {
      var i :| 0 <= i < |b| && a == b[..i] + b[i + 1..];
      assert a + [x] == (b + [x])[..i] + (b + [x])[i + 1..];
    } else {
      var i :| 0 <= i < |a| && b == a[i := b[i]];
      assert b + [x] == (a + [x])[i := (b + [x])[i]];
    }
  }

  lemma ChainUnderSuffix<T(!new)>(chain: seq<seq<T>>, a: seq<T>, b: seq<T>, x: T)
    requires EditChain(chain, a, b)
    ensures EditChain(AppendToEach(chain, x), a + [x], b + [x])
  {
    var r := AppendToEach(chain, x);
    forall i | 0 <= i < |r| - 1
      ensures OneEdit(r[i], r[i + 1])
    {
      OneEditUnderSuffix(chain[i], chain[i + 1], x);
    }
  }

  lemma ExtendChain<T(!new)>(chain: seq<seq<T>>, a: seq<T>, b: seq<T>, c: seq<T>)
    requires EditChain(chain, a, b) && OneEdit(b, c)
    ensures EditChain(chain + [c], a, c)
  {
  }

  /** Some chain of single edits is exactly as long as the distance. */
  lemma {:induction false} ShortestChain<T(!new)>(a: seq<T>, b: seq<T>) returns (chain: seq<seq<T>>)
    ensures EditChain(chain, a, b)
    ensures |chain| - 1 == Distance(a, b)
    decreases |a| + |b|
  {
    if |a| == 0 && |b| == 0 {
      chain := [a];
    } else if |b| == 0 || (|a| != 0 && Distance(a, b) == Distance(a[..|a| - 1], b) + 1) {
      var a' := a[..|a| - 1];
      assert a' == a[..|a| - 1] + a[|a|..];
      var rest := ShortestChain(a', b);
      chain := [a] + rest;
    } else {
      var b' := b[..|b| - 1];
      assert b' == b[..|b| - 1] + b[|b|..];
      assert b == b' + [b[|b| - 1]];
      if |a| == 0 || Distance(a, b) == Distance(a, b') + 1 {
        var rest := ShortestChain(a, b');
        ExtendChain(rest, a, b', b);
        chain := rest + [b];
      } else {
        var a' := a[..|a| - 1];
        var x := a[|a| - 1];
        assert a == a' + [x];
        var rest := ShortestChain(a', b');
        ChainUnderSuffix(rest, a', b', x);
        chain := AppendToEach(rest, x);
        if x != b[|b| - 1] {
          assert b == (b' + [x])[|b'| := b[|b'|]];
          ExtendChain(chain, a, b' + [x], b);
          chain := chain + [b];
        }
      }
    }
  }
}
