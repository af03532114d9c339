/** Strict total orders, the lexicographic order they induce, and canonical sorting. */
module Ordering {

  ghost predicate StrictTotal<T(!new)>(less: (T, T) -> bool)
  {
    && (forall x :: !less(x, x))
    && (forall x, y, z :: less(x, y) && less(y, z) ==> less(x, z))
    && (forall x, y :: x != y ==> less(x, y) || less(y, x))
  }

  predicate LexLess<T(==)>(less: (T, T) -> bool, a: seq<T>, b: seq<T>)
  {
    if b == [] then false
    else if a == [] then true
    else less(a[0], b[0]) || (a[0] == b[0] && LexLess(less, a[1..], b[1..]))
  }

  lemma {:induction false} LexIrreflexive<T(!new)>(less: (T, T) -> bool, a: seq<T>)
    requires StrictTotal(less)
    ensures !LexLess(less, a, a)
  {
    if a != [] {
      LexIrreflexive(less, a[1..]);
    }
  }

  lemma {:induction false} LexTransitive<T(!new)>(less: (T, T) -> bool, a: seq<T>, b: seq<T>, c: seq<T>)
    requires StrictTotal(less) && LexLess(less, a, b) && LexLess(less, b, c)
    ensures LexLess(less, a, c)
  {
    if a != [] && a[0] == b[0] == c[0] {
      LexTransitive(less, a[1..], b[1..], c[1..]);
    }
  }

  lemma {:induction false} LexTotal<T(!new)>(less: (T, T) -> bool, a: seq<T>, b: seq<T>)
    requires StrictTotal(less) && a != b
    ensures LexLess(less, a, b) || LexLess(less, b, a)
  {
    if a != [] && b != [] && a[0] == b[0] {
      assert a == [a[0]] + a[1..] && b == [b[0]] + b[1..];
      LexTotal(less, a[1..], b[1..]);
    }
  }

  predicate CharLess(a: char, b: char) { a < b }

  /** Byte-wise comparison of strings. */
  predicate StringLess(a: string, b: string) { LexLess(CharLess, a, b) }

  /** Comparison of tuples of strings. */
  predicate TupleLess(a: seq<string>, b: seq<string>) { LexLess(StringLess, a, b) }

  lemma {:induction false} StringLessIsStrictTotal()
    ensures StrictTotal(StringLess)
  {
    assert StrictTotal(CharLess);
    forall x: string ensures !StringLess(x, x) { LexIrreflexive(CharLess, x); }
    forall x: string, y: string, z: string | StringLess(x, y) && StringLess(y, z) ensures StringLess(x, z) {
      LexTransitive(CharLess, x, y, z);
    }
    forall x: string, y: string | x != y ensures StringLess(x, y) || StringLess(y, x) {
      LexTotal(CharLess, x, y);
    }
  }

  lemma {:induction false} TupleLessIsStrictTotal()
    ensures StrictTotal(TupleLess)
  {
    StringLessIsStrictTotal();
    forall x: seq<string> ensures !TupleLess(x, x) { LexIrreflexive(StringLess, x); }
    forall x: seq<string>, y: seq<string>, z: seq<string> | TupleLess(x, y) && TupleLess(y, z) ensures TupleLess(x, z) {
      LexTransitive(StringLess, x, y, z);
    }
    forall x: seq<string>, y: seq<string> | x != y ensures TupleLess(x, y) || TupleLess(y, x) {
      LexTotal(StringLess, x, y);
    }
  }

  // ----- Sorting

  ghost predicate Sorted<T>(less: (T, T) -> bool, s: seq<T>)
  {
    forall i, j :: 0 <= i < j < |s| ==> !less(s[j], s[i])
  }

  function Insert<T>(less: (T, T) -> bool, x: T, s: seq<T>): seq<T>
  {
    if s == [] || !less(s[0], x) then [x] + s else [s[0]] + Insert(less, x, s[1..])
  }

  function Sort<T>(less: (T, T) -> bool, s: seq<T>): seq<T>
  {
    if s == [] then [] else Insert(less, s[0], Sort(less, s[1..]))
  }

  lemma {:induction false} SortedCons<T(!new)>(less: (T, T) -> bool, x: T, s: seq<T>)
    requires Sorted(less, s) && forall y :: y in s ==> !less(y, x)
    ensures Sorted(less, [x] + s)
  {
    var r := [x] + s;
    forall i, j | 0 <= i < j < |r| ensures !less(r[j], r[i]) {
      assert r[j] == s[j - 1];
      if i > 0 {
        assert r[i] == s[i - 1];
      }
    }
  }

  lemma {:induction false} InsertMultiset<T>(less: (T, T) -> bool, x: T, s: seq<T>)
    ensures multiset(Insert(less, x, s)) == multiset(s) + multiset{x}
  {
    if s == [] || !less(s[0], x) {
      assert multiset([x] + s) == multiset(s) + multiset{x};
    } else {
      InsertMultiset(less, x, s[1..]);
      assert s == [s[0]] + s[1..];
    }
  }

  lemma {:induction false} InsertSorted<T(!new)>(less: (T, T) -> bool, x: T, s: seq<T>)
    requires StrictTotal(less) && Sorted(less, s)
    ensures Sorted(less, Insert(less, x, s))
  {
    if s == [] || !less(s[0], x) {
      forall y | y in s ensures !less(y, x) {
        var i :| 0 <= i < |s| && s[i] == y;
        assert i == 0 || !less(s[i], s[0]);
      }
      SortedCons(less, x, s);
    } else {
      var rest := Insert(less, x, s[1..]);
      InsertSorted(less, x, s[1..]);
      InsertMultiset(less, x, s[1..]);
      forall y | y in rest ensures !less(y, s[0]) {
        assert y in multiset(rest);
      }
      SortedCons(less, s[0], rest);
    }
  }

  lemma {:induction false} SortIsSorted<T(!new)>(less: (T, T) -> bool, s: seq<T>)
    requires StrictTotal(less)
    ensures multiset(Sort(less, s)) == multiset(s)
    ensures Sorted(less, Sort(less, s))
  {
    if s != [] {
      SortIsSorted(less, s[1..]);
      InsertMultiset(less, s[0], Sort(less, s[1..]));
      InsertSorted(less, s[0], Sort(less, s[1..]));
      assert s == [s[0]] + s[1..];
    }
  }

  lemma {:induction false} TailMultiset<T>(s: seq<T>)
    requires s != []
    ensures multiset(s[1..]) == multiset(s) - multiset{s[0]}
  {
    assert s == [s[0]] + s[1..];
  }

  /** The first element of a sorted sequence is no greater than any of its elements. */
  lemma {:induction false} HeadLeast<T>(less: (T, T) -> bool, s: seq<T>, x: T)
    requires Sorted(less, s) && x in multiset(s)
    ensures s[0] == x || !less(x, s[0])
  {
    var i :| 0 <= i < |s| && s[i] == x;
  }

  lemma {:induction false} SortedUnique<T(!new)>(less: (T, T) -> bool, a: seq<T>, b: seq<T>)
    requires StrictTotal(less) && Sorted(less, a) && Sorted(less, b) && multiset(a) == multiset(b)
    ensures a == b
  {
    assert |multiset(a)| == |a| && |multiset(b)| == |b|;
    if a != [] {
      HeadLeast(less, b, a[0]);
      HeadLeast(less, a, b[0]);
      TailMultiset(a);
      TailMultiset(b);
      SortedUnique(less, a[1..], b[1..]);
      assert a == [a[0]] + a[1..] && b == [b[0]] + b[1..];
    }
  }

  /** Sorting forgets the order of its input and nothing else. */
  lemma {:induction false} SortCanonical<T(!new)>(less: (T, T) -> bool, a: seq<T>, b: seq<T>)
    requires StrictTotal(less)
    ensures multiset(a) == multiset(b) <==> Sort(less, a) == Sort(less, b)
  {
    SortIsSorted(less, a);
    SortIsSorted(less, b);
    if multiset(a) == multiset(b) {
      SortedUnique(less, Sort(less, a), Sort(less, b));
    }
  }
}
