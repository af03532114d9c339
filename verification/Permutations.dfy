/** Lists that differ only in order: what filtering and mapping make of them. */
module Permutations {

  function Filter<T>(p: T -> bool, s: seq<T>): seq<T>
  {
    if s == [] then [] else if p(s[0]) then [s[0]] + Filter(p, s[1..]) else Filter(p, s[1..])
  }

  function Map<T, U>(f: T -> U, s: seq<T>): (r: seq<U>)
    ensures |r| == |s|
  {
    if s == [] then [] else [f(s[0])] + Map(f, s[1..])
  }

  lemma {:induction false} MapAt<T, U>(f: T -> U, s: seq<T>, i: nat)
    requires i < |s|
    ensures Map(f, s)[i] == f(s[i])
  {
    if i > 0 {
      MapAt(f, s[1..], i - 1);
    }
  }

  lemma {:induction false} MapConcat<T, U>(f: T -> U, a: seq<T>, b: seq<T>)
    ensures Map(f, a + b) == Map(f, a) + Map(f, b)
  {
    if a == [] {
      assert a + b == b;
    } else {
      assert (a + b)[1..] == a[1..] + b;
      MapConcat(f, a[1..], b);
    }
  }

  lemma {:induction false} FilterConcat<T>(p: T -> bool, a: seq<T>, b: seq<T>)
    ensures Filter(p, a + b) == Filter(p, a) + Filter(p, b)
  {
    if a == [] {
      assert a + b == b;
    } else {
      assert (a + b)[1..] == a[1..] + b;
      FilterConcat(p, a[1..], b);
    }
  }

  lemma {:induction false} FilterSnoc<T>(p: T -> bool, s: seq<T>, x: T)
    ensures Filter(p, s + [x]) == if p(x) then Filter(p, s) + [x] else Filter(p, s)
  {
    FilterConcat(p, s, [x]);
    assert Filter(p, [x]) == if p(x) then [x] else [];
  }

  lemma {:induction false} FilterCount<T>(p: T -> bool, s: seq<T>, x: T)
    ensures multiset(Filter(p, s))[x] == if p(x) then multiset(s)[x] else 0
  {
    if s != [] {
      FilterCount(p, s[1..], x);
      assert s == [s[0]] + s[1..];
    }
  }

  lemma {:induction false} FilterMembers<T>(p: T -> bool, s: seq<T>)
    ensures forall x :: x in Filter(p, s) <==> x in s && p(x)
  {
    forall x ensures x in Filter(p, s) <==> x in s && p(x) {
      FilterCount(p, s, x);
      assert x in Filter(p, s) <==> x in multiset(Filter(p, s));
    }
  }

  lemma {:induction false} MapMembers<T, U>(f: T -> U, s: seq<T>)
    ensures forall x :: x in s ==> f(x) in Map(f, s)
    ensures forall y :: y in Map(f, s) ==> exists x :: x in s && f(x) == y
  {
    forall i | 0 <= i < |s| ensures Map(f, s)[i] == f(s[i]) {
      MapAt(f, s, i);
    }
    forall x | x in s ensures f(x) in Map(f, s) {
      var i :| 0 <= i < |s| && s[i] == x;
      assert Map(f, s)[i] == f(x);
    }
  }

  lemma {:induction false} SameCounts<T(!new)>(a: multiset<T>, b: multiset<T>)
    requires forall x :: a[x] == b[x]
    ensures a == b
  {
  }

  lemma {:induction false} FilterPermutes<T(!new)>(p: T -> bool, a: seq<T>, b: seq<T>)
    requires multiset(a) == multiset(b)
    ensures multiset(Filter(p, a)) == multiset(Filter(p, b))
  {
    forall x ensures multiset(Filter(p, a))[x] == multiset(Filter(p, b))[x] {
      FilterCount(p, a, x);
      FilterCount(p, b, x);
    }
    SameCounts(multiset(Filter(p, a)), multiset(Filter(p, b)));
  }

  lemma {:induction false} WithoutIndex<T>(s: seq<T>, i: nat)
    requires i < |s|
    ensures multiset(s[..i] + s[i + 1..]) == multiset(s) - multiset{s[i]}
  {
    assert s == s[..i] + [s[i]] + s[i + 1..];
  }

  lemma {:induction false} MapWithoutIndex<T, U>(f: T -> U, s: seq<T>, i: nat)
    requires i < |s|
    ensures multiset(Map(f, s)) == multiset(Map(f, s[..i] + s[i + 1..])) + multiset{f(s[i])}
  {
    assert s == s[..i] + ([s[i]] + s[i + 1..]);
    MapConcat(f, s[..i], s[i + 1..]);
    MapConcat(f, s[..i], [s[i]] + s[i + 1..]);
    MapConcat(f, [s[i]], s[i + 1..]);
    assert Map(f, [s[i]]) == [f(s[i])];
  }

  lemma {:induction false} SameSize<T>(a: seq<T>, b: seq<T>)
    requires multiset(a) == multiset(b)
    ensures |a| == |b|
  {
    assert |multiset(a)| == |a| && |multiset(b)| == |b|;
  }

  lemma {:induction false} FindIndex<T>(s: seq<T>, x: T) returns (i: nat)
    requires x in multiset(s)
    ensures i < |s| && s[i] == x
  {
    i :| 0 <= i < |s| && s[i] == x;
  }

  /** Taking one occurrence of `x` out of a list takes one `f(x)` out of its image. */
  lemma {:induction false} TakeOne<T, U>(f: T -> U, s: seq<T>, x: T) returns (rest: seq<T>)
    requires x in multiset(s)
    ensures |rest| == |s| - 1 && multiset(rest) == multiset(s) - multiset{x}
    ensures multiset(Map(f, s)) == multiset(Map(f, rest)) + multiset{f(x)}
  {
    var i := FindIndex(s, x);
    rest := s[..i] + s[i + 1..];
    WithoutIndex(s, i);
    MapWithoutIndex(f, s, i);
  }

  lemma {:induction false} MapPermutes<T, U>(f: T -> U, a: seq<T>, b: seq<T>)
    requires multiset(a) == multiset(b)
    ensures multiset(Map(f, a)) == multiset(Map(f, b))
    decreases |a|
  {
    SameSize(a, b);
    if a != [] {
      var a' := TakeOne(f, a, a[0]);
      var b' := TakeOne(f, b, a[0]);
      MapPermutes(f, a', b');
    }
  }

  lemma {:induction false} PermutationMembers<T>(a: seq<T>, b: seq<T>)
    requires multiset(a) == multiset(b)
    ensures forall x :: x in a <==> x in b
    ensures |a| == |b|
  {
    assert forall x :: x in a <==> x in multiset(a);
    assert |multiset(a)| == |a| && |multiset(b)| == |b|;
  }
}
