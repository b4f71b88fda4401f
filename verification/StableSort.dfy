/** Insertion sort, for any strict weak order: what it computes and why the result is the only one. */
module StableSort {
  /** Asymmetric, and two entries that are apart are apart on one side of any third. */
  ghost predicate StrictWeak<T(!new)>(less: (T, T) -> bool) {
    && (forall a, b :: less(a, b) ==> !less(b, a))
    && (forall a, b, c :: less(a, c) ==> less(a, b) || less(b, c))
  }

  ghost predicate Equivalent<T>(less: (T, T) -> bool, a: T, b: T) { !less(a, b) && !less(b, a) }

  /** Puts `x` behind the last entry that it is not less than. */
  function Insert<T>(less: (T, T) -> bool, s: seq<T>, x: T): (r: seq<T>)
    ensures |r| == |s| + 1
    decreases |s|
  {
    var n := |s| - 1;
    if s == [] || !less(x, s[n]) then s + [x] else Insert(less, s[..n], x) + [s[n]]
  }

  function Sorted<T>(less: (T, T) -> bool, s: seq<T>): (r: seq<T>)
    ensures |r| == |s|
    decreases |s|
  {
    if s == [] then [] else Insert(less, Sorted(less, s[..|s| - 1]), s[|s| - 1])
  }

  ghost predicate Ordered<T>(less: (T, T) -> bool, s: seq<T>) {
    forall i, j :: 0 <= i < j < |s| ==> !less(s[j], s[i])
  }

  /** The entries equivalent to `c`, in order. */
  ghost function Class<T>(less: (T, T) -> bool, s: seq<T>, c: T): seq<T>
    decreases |s|
  {
    if s == [] then []
    else Class(less, s[..|s| - 1], c) + if Equivalent(less, c, s[|s| - 1]) then [s[|s| - 1]] else []
  }

  lemma ClassOfSnoc<T>(less: (T, T) -> bool, s: seq<T>, x: T, c: T)
    ensures Class(less, s + [x], c) == Class(less, s, c) + if Equivalent(less, c, x) then [x] else []
  {
    assert (s + [x])[..|s|] == s;
  }

  lemma {:induction false} InsertIsPermutation<T>(less: (T, T) -> bool, s: seq<T>, x: T)
    ensures multiset(Insert(less, s, x)) == multiset(s) + multiset{x}
    decreases |s|
  {
    var n := |s| - 1;
    if s != [] && less(x, s[n]) {
      InsertIsPermutation(less, s[..n], x);
      assert s == s[..n] + [s[n]];
    }
  }

  lemma {:induction false} SortedIsPermutation<T>(less: (T, T) -> bool, s: seq<T>)
    ensures multiset(Sorted(less, s)) == multiset(s)
    ensures forall x :: x in Sorted(less, s) <==> x in s
    decreases |s|
  {
    if s != [] {
      var n := |s| - 1;
      SortedIsPermutation(less, s[..n]);
      InsertIsPermutation(less, Sorted(less, s[..n]), s[n]);
      assert s == s[..n] + [s[n]];
    }
    assert forall x :: x in Sorted(less, s) <==> x in multiset(Sorted(less, s));
  }

  lemma SnocKeepsOrder<T(!new)>(less: (T, T) -> bool, s: seq<T>, x: T)
    requires StrictWeak(less) && Ordered(less, s) && (s != [] ==> !less(x, s[|s| - 1]))
    ensures Ordered(less, s + [x])
  {
    if s != [] {
      var last := s[|s| - 1];
      forall i | 0 <= i < |s| - 1 ensures !less(x, s[i]) { assert !less(x, last) && !less(last, s[i]); }
    }
  }

  lemma {:induction false} InsertKeepsOrder<T(!new)>(less: (T, T) -> bool, s: seq<T>, x: T)
    requires StrictWeak(less) && Ordered(less, s)
    ensures Ordered(less, Insert(less, s, x))
    decreases |s|
  {
    var n := |s| - 1;
    if s == [] || !less(x, s[n]) {
      SnocKeepsOrder(less, s, x);
    } else {
      InsertKeepsOrder(less, s[..n], x);
      LastOfInsert(less, s[..n], x);
      SnocKeepsOrder(less, Insert(less, s[..n], x), s[n]);
    }
  }

  lemma LastOfInsert<T>(less: (T, T) -> bool, s: seq<T>, x: T)
    ensures var last := Insert(less, s, x)[|s|]; last == x || (s != [] && last == s[|s| - 1])
  {
  }

  lemma {:induction false} InsertKeepsClasses<T(!new)>(less: (T, T) -> bool, s: seq<T>, x: T, c: T)
    requires StrictWeak(less)
    ensures Class(less, Insert(less, s, x), c) == Class(less, s, c) + if Equivalent(less, c, x) then [x] else []
    decreases |s|
  {
    var n := |s| - 1;
    if s == [] || !less(x, s[n]) {
      ClassOfSnoc(less, s, x, c);
    } else {
      InsertKeepsClasses(less, s[..n], x, c);
      ClassOfSnoc(less, Insert(less, s[..n], x), s[n], c);
      assert !(Equivalent(less, c, x) && Equivalent(less, c, s[n])) by {
        assert less(x, s[n]) ==> less(x, c) || less(c, s[n]);
      }
    }
  }

  /** Sorting gives an ordered rearrangement in which equivalent entries keep their order. */
  lemma {:induction false} SortedIsStable<T(!new)>(less: (T, T) -> bool, s: seq<T>)
    requires StrictWeak(less)
    ensures Ordered(less, Sorted(less, s))
    ensures forall c :: Class(less, Sorted(less, s), c) == Class(less, s, c)
    decreases |s|
  {
    if s != [] {
      var n := |s| - 1;
      SortedIsStable(less, s[..n]);
      var r := Sorted(less, s[..n]);
      InsertKeepsOrder(less, r, s[n]);
      forall c ensures Class(less, Sorted(less, s), c) == Class(less, s, c) {
        InsertKeepsClasses(less, r, s[n], c);
      }
    }
  }

  lemma {:induction false} ClassHas<T>(less: (T, T) -> bool, s: seq<T>, x: T, c: T)
    requires x in s && Equivalent(less, c, x)
    ensures Class(less, s, c) != []
    decreases |s|
  {
    var n := |s| - 1;
    if s[n] != x {
      assert x in s[..n];
      ClassHas(less, s[..n], x, c);
    }
  }

  lemma {:induction false} ClassWithin<T>(less: (T, T) -> bool, s: seq<T>, c: T)
    ensures forall x :: x in Class(less, s, c) ==> x in s && Equivalent(less, c, x)
    decreases |s|
  {
    if s != [] { ClassWithin(less, s[..|s| - 1], c); }
  }

  /** An entry of the one list has an equivalent in the other. */
  lemma CounterpartOf<T(!new)>(less: (T, T) -> bool, a: seq<T>, b: seq<T>, x: T) returns (y: T)
    requires StrictWeak(less) && x in a && Class(less, a, x) == Class(less, b, x)
    ensures y in b && Equivalent(less, x, y)
  {
    ClassHas(less, a, x, x);
    ClassWithin(less, b, x);
    y := Class(less, b, x)[0];
  }

  lemma LastIsEquivalent<T(!new)>(less: (T, T) -> bool, a: seq<T>, b: seq<T>)
    requires StrictWeak(less) && Ordered(less, a) && Ordered(less, b) && a != []
    requires forall c :: Class(less, a, c) == Class(less, b, c)
    ensures b != [] && Equivalent(less, a[|a| - 1], b[|b| - 1])
  {
    var x := a[|a| - 1];
    var x' := CounterpartOf(less, a, b, x);
    var y := b[|b| - 1];
    var y' := CounterpartOf(less, b, a, y);
    LastIsGreatest(less, a, y');
    LastIsGreatest(less, b, x');
    Squeeze(less, x, y, y');
    Squeeze(less, y, x, x');
  }

  lemma LastIsGreatest<T(!new)>(less: (T, T) -> bool, s: seq<T>, x: T)
    requires StrictWeak(less) && Ordered(less, s) && x in s
    ensures !less(s[|s| - 1], x)
  {
  }

  /** What is less than an entry of an ordered list stands before it. */
  lemma LessIsAhead<T>(less: (T, T) -> bool, s: seq<T>, k: nat, x: T)
    requires Ordered(less, s) && k < |s| && x in s && less(x, s[k]) && !less(x, x)
    ensures x in s[..k]
  {
    var j :| 0 <= j < |s| && s[j] == x;
    assert j != k && less(s[j], s[k]);
    assert s[..k][j] == x;
  }

  lemma Squeeze<T(!new)>(less: (T, T) -> bool, x: T, y: T, y': T)
    requires StrictWeak(less) && !less(x, y') && Equivalent(less, y, y')
    ensures !less(x, y)
  {
    assert !less(x, y') && !less(y', y);
  }

  /** Order and stability determine the result. */
  lemma {:induction false} StableOrderIsUnique<T(!new)>(less: (T, T) -> bool, a: seq<T>, b: seq<T>)
    requires StrictWeak(less) && Ordered(less, a) && Ordered(less, b)
    requires forall c :: Class(less, a, c) == Class(less, b, c)
    ensures a == b
    decreases |a|
  {
    if a == [] {
      if b != [] { ClassHas(less, b, b[0], b[0]); }
    } else {
      var n, m := |a| - 1, |b| - 1;
      LastIsEquivalent(less, a, b);
      SameLast(less, a, b);
      forall c ensures Class(less, a[..n], c) == Class(less, b[..m], c) {
        assert Class(less, a, c) == Class(less, b, c);
        assert a == a[..n] + [a[n]] && b == b[..m] + [a[n]];
        ClassOfSnoc(less, a[..n], a[n], c);
        ClassOfSnoc(less, b[..m], a[n], c);
        DropSame(Class(less, a[..n], c), Class(less, b[..m], c), if Equivalent(less, c, a[n]) then [a[n]] else []);
      }
      StableOrderIsUnique(less, a[..n], b[..m]);
      assert a == a[..n] + [a[n]] && b == b[..m] + [b[m]];
    }
  }

  lemma DropSame<T>(a: seq<T>, b: seq<T>, end: seq<T>)
    requires a + end == b + end
    ensures a == b
  {
    assert |a| == |b|;
    assert (a + end)[..|a|] == a && (b + end)[..|b|] == b;
  }

  lemma SameLast<T(!new)>(less: (T, T) -> bool, a: seq<T>, b: seq<T>)
    requires StrictWeak(less) && a != [] && b != [] && Equivalent(less, a[|a| - 1], b[|b| - 1])
    requires Class(less, a, a[|a| - 1]) == Class(less, b, a[|a| - 1])
    ensures a[|a| - 1] == b[|b| - 1]
  {
    var x := a[|a| - 1];
    var k := Class(less, a, x);
    assert k[|k| - 1] == x;
    assert Class(less, b, x)[|k| - 1] == b[|b| - 1];
  }

  // ---------------------------------------------------------------- who stands before whom

  ghost predicate Before<T(!new)>(s: seq<T>, x: T, y: T) {
    exists i, j :: 0 <= i < j < |s| && s[i] == x && s[j] == y
  }

  ghost predicate Unique<T>(s: seq<T>) { forall i, j :: 0 <= i < j < |s| ==> s[i] != s[j] }

  lemma BeforeOnce<T(!new)>(s: seq<T>, x: T, y: T)
    requires Unique(s) && Before(s, x, y)
    ensures x != y && !Before(s, y, x)
  {
  }

  lemma BeforeWithin<T(!new)>(a: seq<T>, s: seq<T>, b: seq<T>, x: T, y: T)
    requires Before(s, x, y)
    ensures Before(a + s + b, x, y)
  {
    var i, j :| 0 <= i < j < |s| && s[i] == x && s[j] == y;
    assert (a + s + b)[|a| + i] == x && (a + s + b)[|a| + j] == y;
  }

  lemma {:induction false} InsertKeepsBefore<T(!new)>(less: (T, T) -> bool, s: seq<T>, x: T, a: T, b: T)
    requires Before(s, a, b)
    ensures Before(Insert(less, s, x), a, b)
    decreases |s|
  {
    var n := |s| - 1;
    var i, j :| 0 <= i < j < |s| && s[i] == a && s[j] == b;
    if !less(x, s[n]) {
      BeforeWithin([], s, [x], a, b);
      assert [] + s + [x] == s + [x];
    } else if j < n {
      assert s[..n][i] == a && s[..n][j] == b;
      InsertKeepsBefore(less, s[..n], x, a, b);
      BeforeWithin([], Insert(less, s[..n], x), [s[n]], a, b);
      assert [] + Insert(less, s[..n], x) + [s[n]] == Insert(less, s[..n], x) + [s[n]];
    } else {
      assert s[..n][i] == a;
      InsertKeeps(less, s[..n], x, a);
      LastIsBehind(Insert(less, s[..n], x), a, b);
    }
  }

  lemma InsertKeeps<T>(less: (T, T) -> bool, s: seq<T>, x: T, e: T)
    requires e in s
    ensures e in Insert(less, s, x)
  {
    InsertIsPermutation(less, s, x);
    assert e in multiset(Insert(less, s, x));
  }

  lemma LastIsBehind<T(!new)>(s: seq<T>, x: T, last: T)
    requires x in s
    ensures Before(s + [last], x, last)
  {
    var i :| 0 <= i < |s| && s[i] == x;
    assert (s + [last])[i] == x && (s + [last])[|s|] == last;
  }

  lemma {:induction false} InsertIsBehind<T(!new)>(less: (T, T) -> bool, s: seq<T>, x: T, e: T)
    requires e in s && !less(x, e)
    ensures Before(Insert(less, s, x), e, x)
    decreases |s|
  {
    var n := |s| - 1;
    if !less(x, s[n]) {
      LastIsBehind(s, e, x);
    } else {
      assert e in s[..n];
      InsertIsBehind(less, s[..n], x, e);
      BeforeWithin([], Insert(less, s[..n], x), [s[n]], e, x);
      assert [] + Insert(less, s[..n], x) + [s[n]] == Insert(less, s[..n], x) + [s[n]];
    }
  }

  /** An entry stays before every later one that is not less than it. */
  lemma {:induction false} SortedKeepsBefore<T(!new)>(less: (T, T) -> bool, s: seq<T>, i: nat, j: nat)
    requires i < j < |s| && !less(s[j], s[i])
    ensures Before(Sorted(less, s), s[i], s[j])
    decreases |s|
  {
    var n := |s| - 1;
    if j < n {
      SortedKeepsBefore(less, s[..n], i, j);
      InsertKeepsBefore(less, Sorted(less, s[..n]), s[n], s[i], s[j]);
    } else {
      SortedIsPermutation(less, s[..n]);
      assert s[i] == s[..n][i];
      InsertIsBehind(less, Sorted(less, s[..n]), s[n], s[i]);
    }
  }

  /** And what is less comes before. */
  lemma SortedPutsLessBefore<T(!new)>(less: (T, T) -> bool, s: seq<T>, x: T, y: T)
    requires StrictWeak(less) && x in s && y in s && less(x, y)
    ensures Before(Sorted(less, s), x, y)
  {
    SortedIsPermutation(less, s);
    SortedIsStable(less, s);
    var r := Sorted(less, s);
    var j :| 0 <= j < |r| && r[j] == y;
    LessIsAhead(less, r, j, x);
    var i :| 0 <= i < |r[..j]| && r[..j][i] == x;
    assert r[i] == x;
  }

  lemma {:induction false} InsertKeepsUnique<T>(less: (T, T) -> bool, s: seq<T>, x: T)
    requires Unique(s) && x !in s
    ensures Unique(Insert(less, s, x))
    decreases |s|
  {
    var n := |s| - 1;
    if s != [] && less(x, s[n]) {
      InsertKeepsUnique(less, s[..n], x);
      InsertIsPermutation(less, s[..n], x);
      var r := Insert(less, s[..n], x);
      assert forall k :: 0 <= k < |r| ==> r[k] in multiset(r);
      assert s[n] !in s[..n];
    }
  }

  lemma {:induction false} SortedKeepsUnique<T>(less: (T, T) -> bool, s: seq<T>)
    requires Unique(s)
    ensures Unique(Sorted(less, s))
    decreases |s|
  {
    if s != [] {
      var n := |s| - 1;
      SortedKeepsUnique(less, s[..n]);
      SortedIsPermutation(less, s[..n]);
      assert s[n] !in s[..n];
      InsertKeepsUnique(less, Sorted(less, s[..n]), s[n]);
    }
  }

  /** Moves entry `i` down into the sorted part before it. */
  method SinkLast<T>(entries: array<T>, i: nat, less: (T, T) -> bool)
    requires i < entries.Length
    modifies entries
    ensures entries[..i + 1] == Insert(less, old(entries[..i]), old(entries[i]))
    ensures entries[i + 1..] == old(entries[i + 1..])
  {
    var j := i;
    ghost var x, base := entries[i], entries[..i];
    ghost var moved: seq<T> := [];
    assert base[..i] == base;
    while j > 0 && less(entries[j], entries[j - 1])
      invariant 0 <= j <= i && entries[j] == x
      invariant entries[..j] == base[..j] && entries[i + 1..] == old(entries[i + 1..])
      invariant entries[j + 1..i + 1] == moved
      invariant Insert(less, base, x) == Insert(less, base[..j], x) + moved
    {
      assert base[j - 1] == entries[..j][j - 1];
      InsertPasses(less, base, j, x, moved);
      entries[j], entries[j - 1] := entries[j - 1], entries[j];
      moved := [base[j - 1]] + moved;
      j := j - 1;
    }
    assert j > 0 ==> base[..j][j - 1] == entries[j - 1];
    assert Insert(less, base[..j], x) == base[..j] + [x];
    assert entries[..i + 1] == entries[..j] + [x] + moved;
  }

  lemma InsertPasses<T>(less: (T, T) -> bool, base: seq<T>, j: nat, x: T, moved: seq<T>)
    requires 0 < j <= |base| && less(x, base[j - 1])
    ensures Insert(less, base[..j], x) + moved == Insert(less, base[..j - 1], x) + ([base[j - 1]] + moved)
  {
    assert base[..j][..j - 1] == base[..j - 1];
  }

  /** The in-place form. */
  method InsertionSort<T>(entries: array<T>, less: (T, T) -> bool)
    modifies entries
    ensures entries[..] == Sorted(less, old(entries[..]))
  {
    ghost var was := entries[..];
    SortedOfShort(less, was);
    var i := 1;
    while i < entries.Length
      invariant 1 <= i && (i <= entries.Length || entries.Length == 0)
      invariant i <= entries.Length ==> entries[..i] == Sorted(less, was[..i]) && entries[i..] == was[i..]
      invariant entries.Length == 0 ==> was == []
    {
      assert entries[i] == entries[i..][0] == was[i] && entries[i + 1..] == was[i + 1..];
      assert was[..i + 1][..i] == was[..i];
      SinkLast(entries, i, less);
      i := i + 1;
    }
    if entries.Length > 0 {
      assert i == entries.Length;
      assert was[..i] == was;
      assert entries[..i] == entries[..];
    }
  }

  lemma SortedOfShort<T>(less: (T, T) -> bool, s: seq<T>)
    ensures s != [] ==> s[..1] == Sorted(less, s[..1])
  {
    if s != [] { assert Sorted(less, s[..1][..0]) == []; }
  }
}
