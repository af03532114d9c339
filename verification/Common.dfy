/** Small value types shared by the other modules. */
module Common {

  datatype Option<+T> = None | Some(value: T)

  datatype Result<+T, +E> = Ok(value: T) | Err(error: E)

  /** One octet of a wire format or of a terminal stream. */
  type byte = b: int | 0 <= b < 256

  /** Concatenation of a list of sequences, in order. */
  function Flatten<T>(parts: seq<seq<T>>): seq<T>
  {
    if parts == [] then [] else parts[0] + Flatten(parts[1..])
  }

  lemma {:induction false} FlattenConcat<T>(a: seq<seq<T>>, b: seq<seq<T>>)
    ensures Flatten(a + b) == Flatten(a) + Flatten(b)
  {
    if a == [] {
      assert a + b == b;
    } else {
      assert (a + b)[1..] == a[1..] + b;
      FlattenConcat(a[1..], b);
    }
  }

  lemma FlattenSingle<T>(a: seq<T>)
    ensures Flatten([a]) == a
  {
    assert Flatten([a]) == a + Flatten([]);
  }

  // ----- Slices of slices

  lemma {:induction false} SliceOfDrop<T>(s: seq<T>, c: nat, i: nat, j: nat)
    requires c <= i <= j <= |s|
    ensures s[c..][i - c..j - c] == s[i..j]
  {
  }

  lemma {:induction false} DropOfDrop<T>(s: seq<T>, c: nat, i: nat)
    requires c <= i <= |s|
    ensures s[c..][i - c..] == s[i..]
  {
  }

  lemma {:induction false} TakeOfDrop<T>(s: seq<T>, c: nat, j: nat)
    requires c <= j <= |s|
    ensures s[c..][..j - c] == s[c..j]
  {
  }

  lemma {:induction false} TakeSplit<T>(s: seq<T>, k: nat, i: nat)
    requires k <= i <= |s|
    ensures s[..k] + s[k..i] == s[..i]
  {
  }

  lemma {:induction false} TakeOfConcat<T>(a: seq<T>, b: seq<T>, i: nat)
    requires i <= |a|
    ensures (a + b)[..i] == a[..i]
  {
  }

  lemma {:induction false} SliceOfConcat<T>(a: seq<T>, b: seq<T>, i: nat, j: nat)
    requires i <= j <= |a|
    ensures (a + b)[i..j] == a[i..j]
  {
  }

  lemma {:induction false} DropOfConcat<T>(a: seq<T>, b: seq<T>, i: nat)
    requires i <= |a|
    ensures (a + b)[i..] == a[i..] + b
  {
  }

  lemma {:induction false} Assoc<T>(a: seq<T>, b: seq<T>, c: seq<T>)
    ensures (a + b) + c == a + (b + c)
  {
  }

  lemma {:induction false} TakeThenDrop<T>(s: seq<T>, i: nat)
    requires i <= |s|
    ensures s[..i] + s[i..] == s
  {
  }

  // ----- Text, as Python's str.strip sees it

  predicate IsSpace(c: char)
  {
    || '\t' <= c <= '\r' || '\U{1C}' <= c <= ' ' || c == '\U{85}' || c == '\U{A0}' || c == '\U{1680}'
    || '\U{2000}' <= c <= '\U{200A}' || c == '\U{2028}' || c == '\U{2029}' || c == '\U{202F}'
    || c == '\U{205F}' || c == '\U{3000}'
  }

  function Strip(s: string): string
  {
    if s == [] then []
    else if IsSpace(s[0]) then Strip(s[1..])
    else if IsSpace(s[|s| - 1]) then Strip(s[..|s| - 1])
    else s
  }

  ghost predicate Spaces(s: string)
  {
    forall i :: 0 <= i < |s| ==> IsSpace(s[i])
  }

  lemma {:induction false} SpaceBefore(c: char, s: string, a: string, t: string, b: string)
    requires IsSpace(c) && s == a + t + b && Spaces(a)
    ensures [c] + s == ([c] + a) + t + b && Spaces([c] + a)
  {
  }

  lemma {:induction false} SpaceBehind(c: char, s: string, a: string, t: string, b: string)
    requires IsSpace(c) && s == a + t + b && Spaces(b)
    ensures s + [c] == a + t + (b + [c]) && Spaces(b + [c])
  {
  }

  /** Stripping takes space from both ends and nothing else. */
  lemma {:induction false} StripParts(s: string) returns (a: string, b: string)
    ensures s == a + Strip(s) + b && Spaces(a) && Spaces(b)
    ensures Strip(s) != "" ==> !IsSpace(Strip(s)[0]) && !IsSpace(Strip(s)[|Strip(s)| - 1])
    decreases |s|
  {
    a, b := "", "";
    if s != "" && IsSpace(s[0]) {
      var front;
      front, b := StripParts(s[1..]);
      a := [s[0]] + front;
      SpaceBefore(s[0], s[1..], front, Strip(s[1..]), b);
      assert [s[0]] + s[1..] == s;
    } else if s != "" && IsSpace(s[|s| - 1]) {
      var n, back := |s| - 1, "";
      a, back := StripParts(s[..n]);
      b := back + [s[n]];
      SpaceBehind(s[n], s[..n], a, Strip(s[..n]), back);
      assert s[..n] + [s[n]] == s;
    } else {
      assert "" + s + "" == s;
    }
  }

  lemma {:induction false} StripAround(a: string, t: string, b: string)
    requires Spaces(a) && Spaces(b) && t != "" && !IsSpace(t[0]) && !IsSpace(t[|t| - 1])
    ensures Strip(a + t + b) == t
    decreases |a| + |b|
  {
    var s := a + t + b;
    if a != "" {
      assert s[1..] == a[1..] + t + b;
      StripAround(a[1..], t, b);
    } else if b != "" {
      assert s == t + b && s[|s| - 1] == b[|b| - 1];
      assert s[..|s| - 1] == a + t + b[..|b| - 1];
      StripAround(a, t, b[..|b| - 1]);
    } else {
      assert s == t;
    }
  }
}
