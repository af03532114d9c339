/**
 * The two case conversions between snake-case wire keys and camel-case property names
 * (apps/ios/Sources/Networking/Coding.swift). Case mapping is that of the ASCII letters.
 */
module WireKeys {
  import opened Common

  predicate IsUpper(c: char) { 'A' <= c <= 'Z' }

  predicate IsLower(c: char) { 'a' <= c <= 'z' }

  /** A character of a wire word: no upper-case letter and no underscore. */
  predicate IsSmall(c: char) { IsLower(c) || '0' <= c <= '9' }

  predicate AllSmall(s: string) { forall i :: 0 <= i < |s| ==> IsSmall(s[i]) }

  function ToUpper(c: char): char
  {
    if IsLower(c) then (c as int - 32) as char else c
  }

  function ToLower(c: char): char
  {
    if IsUpper(c) then (c as int + 32) as char else c
  }

  function Lowered(s: string): string
  {
    seq(|s|, i requires 0 <= i < |s| => ToLower(s[i]))
  }

  function Capitalized(s: string): string
  {
    if s == "" then "" else [ToUpper(s[0])] + s[1..]
  }

  datatype Acronym = Acronym(swift: string, wire: string)

  /** In the order in which they are replaced. */
  const ACRONYMS: seq<Acronym> := [
    Acronym("IDs", "ids"), Acronym("UUID", "uuid"), Acronym("JSON", "json"), Acronym("URL", "url"),
    Acronym("ETag", "e_tag"), Acronym("GiB", "gi_b"), Acronym("ID", "id")]

  // ----- Splitting and joining at underscores

  function FindUnderscore(s: string): (n: nat)
    ensures n <= |s| && '_' !in s[..n] && (n < |s| ==> s[n] == '_')
  {
    if s == "" || s[0] == '_' then 0 else 1 + FindUnderscore(s[1..])
  }

  /** Every component, empty ones included. */
  function SplitAll(s: string): seq<string>
    decreases |s|
  {
    var n := FindUnderscore(s);
    if n == |s| then [s] else [s[..n]] + SplitAll(s[n + 1..])
  }

  /** The components that are not empty. */
  function SplitOmit(s: string): seq<string>
    decreases |s|
  {
    if s == "" then []
    else
      var n := FindUnderscore(s);
      var rest := if n == |s| then [] else SplitOmit(s[n + 1..]);
      if n == 0 then rest else [s[..n]] + rest
  }

  function Join(cs: seq<string>): string
  {
    if cs == [] then "" else if |cs| == 1 then cs[0] else cs[0] + "_" + Join(cs[1..])
  }

  lemma {:induction false} FindAfterWord(w: string, rest: string)
    requires '_' !in w && (rest == "" || rest[0] == '_')
    ensures FindUnderscore(w + rest) == |w|
  {
    if w == "" {
      assert w + rest == rest;
    } else {
      assert (w + rest)[1..] == w[1..] + rest && w[0] in w;
      FindAfterWord(w[1..], rest);
    }
  }

  lemma {:induction false} SplitJoin(cs: seq<string>)
    requires cs != [] && forall c :: c in cs ==> '_' !in c
    ensures SplitAll(Join(cs)) == cs
  {
    var c := cs[0];
    assert c in cs;
    if |cs| == 1 {
      FindAfterWord(c, "");
      assert c + "" == c;
    } else {
      var rest := "_" + Join(cs[1..]);
      assert Join(cs) == c + rest;
      FindAfterWord(c, rest);
      assert (c + rest)[..|c|] == c && (c + rest)[|c| + 1..] == Join(cs[1..]);
      SplitJoin(cs[1..]);
    }
  }

  // ----- From wire key to property name

  /** What the components after the first contribute. */
  function PropertyTail(cs: seq<string>): string
  {
    if cs == [] then ""
    else if |cs| > 1 && cs[0] == "gi" && cs[1] == "b" then "GiB" + PropertyTail(cs[2..])
    else if |cs| > 1 && cs[0] == "e" && cs[1] == "tag" then "ETag" + PropertyTail(cs[2..])
    else if cs[0] == "id" then "ID" + PropertyTail(cs[1..])
    else if cs[0] == "ids" then "IDs" + PropertyTail(cs[1..])
    else if cs[0] == "url" then "URL" + PropertyTail(cs[1..])
    else if cs[0] == "json" then "JSON" + PropertyTail(cs[1..])
    else if cs[0] == "uuid" then "UUID" + PropertyTail(cs[1..])
    else Capitalized(cs[0]) + PropertyTail(cs[1..])
  }

  function PropertyName(wireKey: string): string
  {
    if '_' !in wireKey then wireKey
    else
      var cs := SplitAll(wireKey);
      cs[0] + PropertyTail(cs[1..])
  }

  method CodexPropertyName(wireKey: string) returns (name: string)
    ensures name == PropertyName(wireKey)
  {
    if '_' !in wireKey { return wireKey; }
    var cs := SplitAll(wireKey);
    name := cs[0];
    var index := 1;
    while index < |cs|
      invariant 1 <= index <= |cs|
      invariant name + PropertyTail(cs[index..]) == PropertyName(wireKey)
    {
      ghost var so, left := name, cs[index..];
      var component := cs[index];
      var next := if index + 1 < |cs| then Some(cs[index + 1]) else None;
      var piece;
      if component == "gi" && next == Some("b") {
        piece, index := "GiB", index + 2;
      } else if component == "e" && next == Some("tag") {
        piece, index := "ETag", index + 2;
      } else {
        index := index + 1;
        piece := match component
          case "id" => "ID"
          case "ids" => "IDs"
          case "url" => "URL"
          case "json" => "JSON"
          case "uuid" => "UUID"
          case _ => Capitalized(component);
      }
      assert PropertyTail(left) == piece + PropertyTail(cs[index..]);
      Assoc(so, piece, PropertyTail(cs[index..]));
      name := name + piece;
    }
    assert name + "" == name;
  }

  // ----- From property name to wire key

  /** Leftmost non-overlapping occurrences of `p` replaced by `r`. */
  function Replace(s: string, p: string, r: string): string
    requires p != ""
    decreases |s|
  {
    if |s| < |p| then s
    else if p <= s then r + Replace(s[|p|..], p, r)
    else [s[0]] + Replace(s[1..], p, r)
  }

  function Fenced(wire: string): string { "_" + wire + "_" }

  function Normalize(s: string, j: nat): string
    requires j <= |ACRONYMS|
    decreases |ACRONYMS| - j
  {
    if j == |ACRONYMS| then s else Normalize(Replace(s, ACRONYMS[j].swift, Fenced(ACRONYMS[j].wire)), j + 1)
  }

  /** The words of `s` when `current` is being collected. */
  function Words(s: string, current: string): seq<string>
    decreases |s|
  {
    if s == "" then (if current != "" then [Lowered(current)] else [])
    else if IsUpper(s[0]) && current != "" then [Lowered(current)] + Words(s[1..], [s[0]])
    else Words(s[1..], current + [s[0]])
  }

  function FlatWords(cs: seq<string>): seq<string>
  {
    if cs == [] then [] else Words(cs[0], "") + FlatWords(cs[1..])
  }

  function WireWords(s: string): seq<string>
  {
    FlatWords(SplitOmit(s))
  }

  function WireKey(propertyKey: string): string
  {
    Join(WireWords(Normalize(propertyKey, 0)))
  }

  method SnakeCaseWords(component: string) returns (words: seq<string>)
    ensures words == Words(component, "")
  {
    words := [];
    var current := "";
    for i := 0 to |component|
      invariant words + Words(component[i..], current) == Words(component, "")
    {
      assert component[i..][0] == component[i] && component[i..][1..] == component[i + 1..];
      if IsUpper(component[i]) && current != "" {
        Assoc(words, [Lowered(current)], Words(component[i + 1..], [component[i]]));
        words := words + [Lowered(current)];
        current := [component[i]];
      } else {
        current := current + [component[i]];
      }
    }
    assert component[|component|..] == "";
    if current != "" {
      words := words + [Lowered(current)];
    }
  }

  method CodexWireKey(propertyKey: string) returns (key: string)
    ensures key == WireKey(propertyKey)
  {
    var normalized := propertyKey;
    for j := 0 to |ACRONYMS|
      invariant Normalize(normalized, j) == Normalize(propertyKey, 0)
    {
      normalized := Replace(normalized, ACRONYMS[j].swift, Fenced(ACRONYMS[j].wire));
    }
    var cs := SplitOmit(normalized);
    var words: seq<string> := [];
    for i := 0 to |cs|
      invariant words + FlatWords(cs[i..]) == FlatWords(cs)
    {
      assert cs[i..][0] == cs[i] && cs[i..][1..] == cs[i + 1..];
      var more := SnakeCaseWords(cs[i]);
      Assoc(words, more, FlatWords(cs[i + 1..]));
      words := words + more;
    }
    assert cs[|cs|..] == [] && words + [] == words;
    key := Join(words);
  }

  // ----- Replacement piece by piece

  ghost predicate EndsWith(a: string, x: string)
  {
    |x| <= |a| && a[|a| - |x|..] == x
  }

  /** No occurrence of `p` begins in `a` and ends in `b`. */
  ghost predicate Apart(p: string, a: string, b: string)
  {
    forall k :: 0 < k < |p| && EndsWith(a, p[..k]) ==> !(p[k..] <= b)
  }

  lemma {:induction false} ApartSuffix(p: string, a: string, b: string, n: nat)
    requires Apart(p, a, b) && n <= |a|
    ensures Apart(p, a[n..], b)
  {
    forall k | 0 < k < |p| && EndsWith(a[n..], p[..k]) ensures !(p[k..] <= b) {
      assert a[n..][|a| - n - k..] == a[|a| - k..];
      assert EndsWith(a, p[..k]);
    }
  }

  lemma {:induction false} Straddling(p: string, a: string, b: string)
    requires p <= a + b && 0 < |a| < |p|
    ensures EndsWith(a, p[..|a|]) && p[|a|..] <= b
  {
    var k := |a|;
    assert p[..k] == (a + b)[..k] == a;
    assert p == (a + b)[..|p|];
    assert p[k..] == (a + b)[k..|p|] == b[..|p| - k];
  }

  lemma {:induction false} PrefixOfSum(p: string, a: string, b: string)
    requires |p| <= |a|
    ensures p <= a + b <==> p <= a
  {
    assert (a + b)[..|p|] == a[..|p|];
    assert p <= a <==> a[..|p|] == p;
    assert p <= a + b <==> (a + b)[..|p|] == p;
  }

  lemma {:induction false} ReplaceShort(s: string, p: string, r: string)
    requires p != "" && |s| < |p|
    ensures Replace(s, p, r) == s
  {
  }

  lemma {:induction false} ReplaceNext(s: string, p: string, r: string)
    requires p != "" && s != "" && !(p <= s)
    ensures Replace(s, p, r) == [s[0]] + Replace(s[1..], p, r)
  {
    if |s| < |p| {
      ReplaceShort(s[1..], p, r);
    }
  }

  lemma {:induction false} ReplaceConcat(p: string, r: string, a: string, b: string)
    requires p != "" && Apart(p, a, b)
    ensures Replace(a + b, p, r) == Replace(a, p, r) + Replace(b, p, r)
    decreases |a|
  {
    if a == "" {
      assert a + b == b;
    } else if p <= a + b {
      if |a| < |p| {
        Straddling(p, a, b);
      } else {
        PrefixOfSum(p, a, b);
        ApartSuffix(p, a, b, |p|);
        DropOfConcat(a, b, |p|);
        ReplaceConcat(p, r, a[|p|..], b);
        Assoc(r, Replace(a[|p|..], p, r), Replace(b, p, r));
      }
    } else {
      NotPrefix(p, a, b);
      ApartSuffix(p, a, b, 1);
      DropOfConcat(a, b, 1);
      ReplaceConcat(p, r, a[1..], b);
      ReplaceNext(a + b, p, r);
      ReplaceNext(a, p, r);
      Assoc([a[0]], Replace(a[1..], p, r), Replace(b, p, r));
    }
  }

  lemma {:induction false} NotPrefix(p: string, a: string, b: string)
    requires !(p <= a + b)
    ensures !(p <= a)
  {
    if |p| <= |a| {
      PrefixOfSum(p, a, b);
    }
  }

  ghost predicate Occurs(p: string, s: string, i: nat)
  {
    i + |p| <= |s| && s[i..i + |p|] == p
  }

  lemma {:induction false} ReplaceNone(s: string, p: string, r: string)
    requires p != "" && forall i: nat :: !Occurs(p, s, i)
    ensures Replace(s, p, r) == s
  {
    if |s| >= |p| {
      assert !Occurs(p, s, 0);
      assert p <= s <==> s[0..|p|] == p;
      forall i: nat ensures !Occurs(p, s[1..], i) {
        if i + |p| <= |s| - 1 {
          SliceOfDrop(s, 1, i + 1, i + 1 + |p|);
          assert !Occurs(p, s, i + 1);
        }
      }
      ReplaceNone(s[1..], p, r);
    }
  }

  // ----- Any list of words

  /** A component of a wire key: a letter, then letters and digits. */
  predicate ComponentOk(c: string)
  {
    c != "" && AllSmall(c) && IsLower(c[0])
  }

  predicate ComponentsOk(cs: seq<string>)
  {
    forall i :: 0 <= i < |cs| ==> ComponentOk(cs[i])
  }

  /** What stands together in a property name: an acronym with letters behind it, from `size` components, or one word. */
  datatype Group = Acro(index: nat, suffix: string, size: nat) | Word(word: string)

  /** The acronym that a single component is. */
  function Special(c: string): Option<nat>
  {
    if c == "id" then Some(6)
    else if c == "ids" then Some(0)
    else if c == "url" then Some(3)
    else if c == "json" then Some(2)
    else if c == "uuid" then Some(1)
    else None
  }

  /** The first group. Components that are no acronym can still read like one when their capitals meet. */
  function Head(cs: seq<string>): (g: Group)
    requires cs != []
    ensures g.Acro? ==> 1 <= g.size <= |cs| && g.index < |ACRONYMS|
    ensures g.Word? ==> g.word == cs[0]
  {
    if |cs| > 1 && cs[0] == "gi" && "b" <= cs[1] then Acro(5, cs[1][1..], 2)
    else if |cs| > 1 && cs[0] == "e" && "tag" <= cs[1] then Acro(4, cs[1][3..], 2)
    else if Special(cs[0]).Some? then Acro(Special(cs[0]).value, "", 1)
    else if |cs| > 1 && cs[0] == "i" && "ds" <= cs[1] then Acro(0, cs[1][2..], 2)
    else if |cs| > 1 && cs[0] == "i" && "d" <= cs[1] then Acro(6, cs[1][1..], 2)
    else if |cs| > 2 && cs[0] == "u" && cs[1] == "r" && "l" <= cs[2] then Acro(3, cs[2][1..], 3)
    else if |cs| > 3 && cs[0] == "j" && cs[1] == "s" && cs[2] == "o" && "n" <= cs[3] then Acro(2, cs[3][1..], 4)
    else if |cs| > 2 && cs[0] == "u" && cs[1] == "u" && cs[2] == "id" then Acro(1, "", 3)
    else if |cs| > 3 && cs[0] == "u" && cs[1] == "u" && cs[2] == "i" && "d" <= cs[3] && !("ds" <= cs[3]) then
      Acro(1, cs[3][1..], 4)
    else Word(cs[0])
  }

  function Rest(cs: seq<string>): (rest: seq<string>)
    requires cs != []
    ensures |rest| < |cs|
  {
    cs[(if Head(cs).Acro? then Head(cs).size else 1)..]
  }

  /**
   * Components that do not come back: `gi` before a longer word in `b`, `e` before a longer word in `tag`, `i`
   * before a word in `d`, and the single letters of the other acronyms before a word that completes them.
   */
  predicate Clash(cs: seq<string>)
  {
    && |cs| > 1
    && (|| (cs[0] == "gi" && "b" <= cs[1] && cs[1] != "b")
        || (cs[0] == "e" && "tag" <= cs[1] && cs[1] != "tag")
        || (cs[0] == "i" && "d" <= cs[1])
        || (|cs| > 2 && cs[0] == "u" && cs[1] == "r" && "l" <= cs[2])
        || (|cs| > 3 && cs[0] == "j" && cs[1] == "s" && cs[2] == "o" && "n" <= cs[3])
        || (|cs| > 2 && cs[0] == "u" && cs[1] == "u" && cs[2] == "id"))
  }

  predicate AnyClash(cs: seq<string>)
  {
    exists i :: 0 <= i < |cs| && Clash(cs[i..])
  }

  /** The group in a property name after `j` of the replacements. */
  function PieceOf(g: Group, j: nat): string
    requires g.Acro? ==> g.index < |ACRONYMS|
  {
    match g
    case Acro(a, x, _) => (if a < j then Fenced(ACRONYMS[a].wire) else ACRONYMS[a].swift) + x
    case Word(w) => Capitalized(w)
  }

  /** The components in a property name after `j` of the replacements. */
  function Body(cs: seq<string>, j: nat): string
    decreases |cs|
  {
    if cs == [] then "" else PieceOf(Head(cs), j) + Body(Rest(cs), j)
  }

  function AcronymWords(a: nat): seq<string>
    requires a < |ACRONYMS|
  {
    if a == 4 then ["e", "tag"] else if a == 5 then ["gi", "b"] else [ACRONYMS[a].wire]
  }

  function GroupWords(g: Group): seq<string>
    requires g.Acro? ==> g.index < |ACRONYMS|
  {
    match g
    case Acro(a, x, _) => AcronymWords(a) + if x == "" then [] else [x]
    case Word(w) => [w]
  }

  /** The words that come back. */
  function Returned(cs: seq<string>): seq<string>
    decreases |cs|
  {
    if cs == [] then [] else GroupWords(Head(cs)) + Returned(Rest(cs))
  }

  /** What is known of the letters behind an acronym. */
  ghost predicate SuffixOk(a: nat, x: string)
  {
    AllSmall(x) && (a == 1 || a == 6 ==> x == "" || x[0] != 's')
  }

  lemma {:induction false} HeadSuffix(cs: seq<string>)
    requires cs != [] && ComponentsOk(cs)
    ensures Head(cs).Acro? ==> SuffixOk(Head(cs).index, Head(cs).suffix)
    ensures ComponentsOk(Rest(cs))
  {
  }

  // ----- The property name

  /** The component is capitalised on its own. */
  predicate Alone(cs: seq<string>)
    requires cs != []
  {
    && Special(cs[0]).None?
    && !(|cs| > 1 && cs[0] == "gi" && cs[1] == "b")
    && !(|cs| > 1 && cs[0] == "e" && cs[1] == "tag")
  }

  lemma {:induction false} TailOfAlone(cs: seq<string>)
    requires cs != [] && Alone(cs)
    ensures PropertyTail(cs) == Capitalized(cs[0]) + PropertyTail(cs[1..])
  {
  }

  lemma {:induction false} CapitalizedParts(w: string, p: string)
    requires p != "" && p <= w
    ensures Capitalized(w) == Capitalized(p) + w[|p|..]
  {
    assert w == p + w[|p|..];
    assert w[1..] == p[1..] + w[|p|..];
  }

  lemma {:induction false} Regroup(a: string, p: string, x: string, rest: string)
    ensures a + ((p + x) + rest) == ((a + p) + x) + rest
  {
    Assoc(p, x, rest);
    Assoc(a, p, x + rest);
    Assoc(a + p, x, rest);
  }

  lemma {:induction false} TwoAlone(cs: seq<string>, a: string, p: string)
    requires |cs| > 1 && cs[0] == a && p != "" && p <= cs[1] && Alone(cs) && Alone(cs[1..])
    ensures PropertyTail(cs) == ((Capitalized(a) + Capitalized(p)) + cs[1][|p|..]) + PropertyTail(cs[2..])
  {
    TailOfAlone(cs);
    TailOfAlone(cs[1..]);
    DropOfDrop(cs, 1, 2);
    CapitalizedParts(cs[1], p);
    Regroup(Capitalized(a), Capitalized(p), cs[1][|p|..], PropertyTail(cs[2..]));
  }

  lemma {:induction false} OneMoreAlone(cs: seq<string>, a: string, tail: string)
    requires cs != [] && cs[0] == a && Alone(cs) && PropertyTail(cs[1..]) == tail
    ensures PropertyTail(cs) == Capitalized(a) + tail
  {
    TailOfAlone(cs);
  }

  lemma {:induction false} Begins(p: string, w: string, c: char)
    requires p != "" && p <= w && p[0] == c
    ensures w != "" && w[0] == c
  {
  }

  /** A word whose first letter begins no acronym is capitalised on its own. */
  lemma {:induction false} AloneBy(cs: seq<string>, c: char)
    requires cs != [] && cs[0] != "" && cs[0][0] == c && c !in {'i', 'u', 'j', 'g', 'e'}
    ensures Alone(cs)
  {
  }

  lemma {:induction false} CapitalOf(w: string, c: char, rest: string)
    requires w == [c] + rest
    ensures Capitalized(w) == [ToUpper(c)] + rest
  {
    assert w[1..] == rest;
  }

  lemma {:induction false} TailOfGenuine(cs: seq<string>)
    requires cs != [] && !Alone(cs)
    ensures PropertyTail(cs) == PieceOf(Head(cs), 0) + PropertyTail(Rest(cs))
  {
    var g := Head(cs);
    assert "b"[1..] == "" && "tag"[3..] == "";
    assert g.Acro? && g.suffix == "" && ACRONYMS[g.index].swift + "" == ACRONYMS[g.index].swift;
  }

  lemma {:induction false} TailOfPair(cs: seq<string>, a: string, p: string, piece: string)
    requires |cs| > 1 && cs[0] == a && p != "" && p <= cs[1] && Alone(cs) && p[0] !in {'i', 'u', 'j', 'g', 'e'}
    requires Capitalized(a) + Capitalized(p) == piece
    ensures PropertyTail(cs) == (piece + cs[1][|p|..]) + PropertyTail(cs[2..])
  {
    Begins(p, cs[1], p[0]);
    AloneBy(cs[1..], p[0]);
    TwoAlone(cs, a, p);
  }

  lemma {:induction false} TailOfGi(cs: seq<string>)
    requires |cs| > 1 && cs[0] == "gi" && "b" <= cs[1] && Alone(cs)
    ensures PropertyTail(cs) == ("GiB" + cs[1][1..]) + PropertyTail(cs[2..])
  {
    CapitalOf("gi", 'g', "i");
    CapitalOf("b", 'b', "");
    TailOfPair(cs, "gi", "b", "GiB");
  }

  lemma {:induction false} TailOfTag(cs: seq<string>)
    requires |cs| > 1 && cs[0] == "e" && "tag" <= cs[1] && Alone(cs)
    ensures PropertyTail(cs) == ("ETag" + cs[1][3..]) + PropertyTail(cs[2..])
  {
    CapitalOf("e", 'e', "");
    CapitalOf("tag", 't', "ag");
    TailOfPair(cs, "e", "tag", "ETag");
  }

  lemma {:induction false} TailOfIds(cs: seq<string>)
    requires |cs| > 1 && cs[0] == "i" && "ds" <= cs[1]
    ensures PropertyTail(cs) == ("IDs" + cs[1][2..]) + PropertyTail(cs[2..])
  {
    CapitalOf("i", 'i', "");
    CapitalOf("ds", 'd', "s");
    TailOfPair(cs, "i", "ds", "IDs");
  }

  lemma {:induction false} TailOfId(cs: seq<string>)
    requires |cs| > 1 && cs[0] == "i" && "d" <= cs[1]
    ensures PropertyTail(cs) == ("ID" + cs[1][1..]) + PropertyTail(cs[2..])
  {
    CapitalOf("i", 'i', "");
    CapitalOf("d", 'd', "");
    TailOfPair(cs, "i", "d", "ID");
  }

  /** A single letter before a tail that begins with `piece`. */
  lemma {:induction false} TailOfLetter(cs: seq<string>, a: char, piece: string, x: string, more: string)
    requires cs != [] && cs[0] == [a] && Alone(cs) && PropertyTail(cs[1..]) == (piece + x) + more
    ensures PropertyTail(cs) == (([ToUpper(a)] + piece) + x) + more
  {
    CapitalOf(cs[0], a, "");
    assert [ToUpper(a)] + "" == [ToUpper(a)];
    OneMoreAlone(cs, cs[0], PropertyTail(cs[1..]));
    Assoc([ToUpper(a)], piece, x);
    Assoc([ToUpper(a)], piece + x, more);
  }

  lemma {:induction false} TailOfUrl(cs: seq<string>)
    requires |cs| > 2 && cs[0] == "u" && cs[1] == "r" && "l" <= cs[2]
    ensures PropertyTail(cs) == ("URL" + cs[2][1..]) + PropertyTail(cs[3..])
  {
    CapitalOf("r", 'r', "");
    CapitalOf("l", 'l', "");
    AloneBy(cs[1..], 'r');
    TailOfPair(cs[1..], "r", "l", "RL");
    DropOfDrop(cs, 1, 3);
    TailOfLetter(cs, 'u', "RL", cs[2][1..], PropertyTail(cs[3..]));
    assert ['U'] + "RL" == "URL";
  }

  lemma {:induction false} TailOfSon(cs: seq<string>)
    requires |cs| > 2 && cs[0] == "s" && cs[1] == "o" && "n" <= cs[2]
    ensures PropertyTail(cs) == ("SON" + cs[2][1..]) + PropertyTail(cs[3..])
  {
    CapitalOf("o", 'o', "");
    CapitalOf("n", 'n', "");
    AloneBy(cs[1..], 'o');
    TailOfPair(cs[1..], "o", "n", "ON");
    DropOfDrop(cs, 1, 3);
    TailOfLetter(cs, 's', "ON", cs[2][1..], PropertyTail(cs[3..]));
    assert ['S'] + "ON" == "SON";
  }

  lemma {:induction false} TailOfJson(cs: seq<string>)
    requires |cs| > 3 && cs[0] == "j" && cs[1] == "s" && cs[2] == "o" && "n" <= cs[3]
    ensures PropertyTail(cs) == ("JSON" + cs[3][1..]) + PropertyTail(cs[4..])
  {
    TailOfSon(cs[1..]);
    DropOfDrop(cs, 1, 4);
    TailOfLetter(cs, 'j', "SON", cs[3][1..], PropertyTail(cs[4..]));
    assert ['J'] + "SON" == "JSON";
  }

  /** Twice the letter `u` before a tail that begins with `ID`. */
  lemma {:induction false} TailOfUuid(cs: seq<string>, x: string, more: string)
    requires |cs| > 2 && cs[0] == "u" && cs[1] == "u" && PropertyTail(cs[2..]) == ("ID" + x) + more
    ensures PropertyTail(cs) == ("UUID" + x) + more
  {
    DropOfDrop(cs, 1, 2);
    TailOfLetter(cs[1..], 'u', "ID", x, more);
    assert ['U'] + "ID" == "UID";
    TailOfLetter(cs, 'u', "UID", x, more);
    assert ['U'] + "UID" == "UUID";
  }

  lemma {:induction false} TailOfUuidWord(cs: seq<string>)
    requires |cs| > 2 && cs[0] == "u" && cs[1] == "u" && cs[2] == "id"
    ensures PropertyTail(cs) == ("UUID" + "") + PropertyTail(cs[3..])
  {
    assert PropertyTail(cs[2..]) == "ID" + PropertyTail(cs[2..][1..]);
    DropOfDrop(cs, 2, 3);
    assert "ID" + "" == "ID";
    TailOfUuid(cs, "", PropertyTail(cs[3..]));
  }

  lemma {:induction false} TailOfUuidLetters(cs: seq<string>)
    requires |cs| > 3 && cs[0] == "u" && cs[1] == "u" && cs[2] == "i" && "d" <= cs[3]
    ensures PropertyTail(cs) == ("UUID" + cs[3][1..]) + PropertyTail(cs[4..])
  {
    TailOfId(cs[2..]);
    DropOfDrop(cs, 2, 4);
    TailOfUuid(cs, cs[3][1..], PropertyTail(cs[4..]));
  }

  lemma {:induction false} TailOfHead(cs: seq<string>)
    requires cs != []
    ensures PropertyTail(cs) == PieceOf(Head(cs), 0) + PropertyTail(Rest(cs))
  {
    if !Alone(cs) {
      TailOfGenuine(cs);
    } else {
      match Head(cs)
      case Word(_) => TailOfAlone(cs);
      case Acro(a, x, n) =>
        if a == 5 {
          TailOfGi(cs);
        } else if a == 4 {
          TailOfTag(cs);
        } else if a == 0 {
          TailOfIds(cs);
        } else if a == 6 {
          TailOfId(cs);
        } else if a == 3 {
          TailOfUrl(cs);
        } else if a == 2 {
          TailOfJson(cs);
        } else if n == 3 {
          TailOfUuidWord(cs);
        } else {
          TailOfUuidLetters(cs);
        }
    }
  }

  lemma {:induction false} TailIsBody(cs: seq<string>)
    ensures PropertyTail(cs) == Body(cs, 0)
    decreases |cs|
  {
    if cs != [] {
      TailOfHead(cs);
      TailIsBody(Rest(cs));
    }
  }

  ghost predicate FirstOk(first: string)
  {
    first != "" && AllSmall(first)
  }

  lemma {:induction false} NoUnderscore(s: string)
    requires AllSmall(s)
    ensures '_' !in s
  {
  }

  lemma {:induction false} ListPlain(first: string, cs: seq<string>)
    requires FirstOk(first) && forall i :: 0 <= i < |cs| ==> AllSmall(cs[i])
    ensures SplitAll(Join([first] + cs)) == [first] + cs
  {
    var all := [first] + cs;
    forall c | c in all ensures '_' !in c {
      var i :| 0 <= i < |all| && all[i] == c;
      assert i > 0 ==> all[i] == cs[i - 1];
      NoUnderscore(c);
    }
    SplitJoin(all);
  }

  lemma {:induction false} PropertyOfKey(first: string, cs: seq<string>)
    requires FirstOk(first) && ComponentsOk(cs)
    ensures PropertyName(Join([first] + cs)) == first + Body(cs, 0)
  {
    var key := Join([first] + cs);
    ListPlain(first, cs);
    TailIsBody(cs);
    assert ([first] + cs)[1..] == cs;
    if '_' !in key {
      FindAfterWord(key, "");
      assert key + "" == key;
      assert SplitAll(key) == [key];
      assert |[first] + cs| == 1;
      assert cs == [];
    }
  }

  // ----- One replacement

  predicate NoUpper(s: string) { forall i :: 0 <= i < |s| ==> !IsUpper(s[i]) }

  function Swift(j: nat): string
    requires j < |ACRONYMS|
  {
    ACRONYMS[j].swift
  }

  /** Every acronym begins with a capital and has another one. */
  lemma {:induction false} Capitals(j: nat) returns (k: nat)
    requires j < |ACRONYMS|
    ensures IsUpper(Swift(j)[0]) && 0 < k < |Swift(j)| && IsUpper(Swift(j)[k])
    ensures j != 5 ==> Swift(j)[0] != 'G' && Swift(j)[0] != 'B'
  {
    k := if j == 5 then 2 else 1;
  }

  /** A letter that stands before an inner capital of an acronym. */
  predicate IsInner(c: char)
  {
    c == 'I' || c == 'U' || c == 'J' || c == 'S' || c == 'O' || c == 'R' || c == 'E'
  }

  /** The letter before an inner capital of an acronym ends no piece, except in the one for gibibytes. */
  lemma {:induction false} BeforeCapital(j: nat, k: nat)
    requires j < |ACRONYMS| && 0 < k < |Swift(j)| && (IsUpper(Swift(j)[k]) || Swift(j)[k] == '_')
    ensures IsInner(Swift(j)[k - 1]) || (j == 5 && k == 2)
  {
  }

  lemma {:induction false} OccursAt(p: string, s: string, n: nat, k: nat)
    requires Occurs(p, s, n) && k < |p|
    ensures s[n + k] == p[k]
  {
    assert s[n..n + |p|][k] == s[n + k];
  }

  lemma {:induction false} NoneInSmall(j: nat, s: string)
    requires j < |ACRONYMS| && NoUpper(s)
    ensures forall n: nat :: !Occurs(Swift(j), s, n)
  {
    forall n: nat ensures !Occurs(Swift(j), s, n) {
      var k := Capitals(j);
      if Occurs(Swift(j), s, n) {
        OccursAt(Swift(j), s, n, 0);
      }
    }
  }

  lemma {:induction false} NoneInWord(j: nat, s: string)
    requires j < |ACRONYMS| && forall i :: 1 <= i < |s| ==> !IsUpper(s[i])
    ensures forall n: nat :: !Occurs(Swift(j), s, n)
  {
    forall n: nat ensures !Occurs(Swift(j), s, n) {
      var k := Capitals(j);
      if Occurs(Swift(j), s, n) {
        OccursAt(Swift(j), s, n, k);
      }
    }
  }

  ghost predicate GroupOk(g: Group)
  {
    match g
    case Acro(a, x, _) => a < |ACRONYMS| && SuffixOk(a, x)
    case Word(w) => ComponentOk(w)
  }

  /** An acronym with its suffix holds no `IDs`, because its suffix then begins with another letter. */
  lemma {:induction false} NoIdsInAcro(a: nat, x: string)
    requires 0 < a < |ACRONYMS| && SuffixOk(a, x)
    ensures forall n: nat :: !Occurs(Swift(0), Swift(a) + x, n)
  {
    var s := Swift(a) + x;
    assert forall m :: |Swift(a)| <= m < |s| ==> s[m] == x[m - |Swift(a)|];
    forall n: nat ensures !Occurs(Swift(0), s, n) {
      if Occurs(Swift(0), s, n) {
        OccursAt(Swift(0), s, n, 0);
        OccursAt(Swift(0), s, n, 1);
        OccursAt(Swift(0), s, n, 2);
      }
    }
  }

  /** An acronym with its suffix holds none of the acronyms replaced before it. */
  lemma {:induction false} NoneInAcro(a: nat, x: string, j: nat)
    requires j < a < |ACRONYMS| && SuffixOk(a, x)
    ensures forall n: nat :: !Occurs(Swift(j), Swift(a) + x, n)
  {
    if j == 0 {
      NoIdsInAcro(a, x);
    } else {
      var s := Swift(a) + x;
      assert forall m :: |Swift(a)| <= m < |s| ==> s[m] == x[m - |Swift(a)|];
      forall n: nat ensures !Occurs(Swift(j), s, n) {
        if Occurs(Swift(j), s, n) {
          OccursAt(Swift(j), s, n, 0);
          OccursAt(Swift(j), s, n, 1);
        }
      }
    }
  }

  lemma {:induction false} FencedIsSmall(i: nat)
    requires i < |ACRONYMS|
    ensures NoUpper(Fenced(ACRONYMS[i].wire)) && Fenced(ACRONYMS[i].wire) != ""
    ensures Fenced(ACRONYMS[i].wire)[0] == '_' && Fenced(ACRONYMS[i].wire)[|Fenced(ACRONYMS[i].wire)| - 1] == '_'
  {
    var w := ACRONYMS[i].wire;
    assert NoUpper(w);
    assert Fenced(w)[|w| + 1] == '_';
  }

  lemma {:induction false} CapitalizedShape(w: string)
    requires ComponentOk(w)
    ensures |Capitalized(w)| == |w| && IsUpper(Capitalized(w)[0]) && Capitalized(w)[0] == ToUpper(w[0])
    ensures forall i :: 1 <= i < |w| ==> Capitalized(w)[i] == w[i] && IsSmall(w[i])
  {
  }

  lemma {:induction false} NoUpperSum(s: string, x: string)
    requires NoUpper(s) && AllSmall(x)
    ensures NoUpper(s + x)
  {
  }

  lemma {:induction false} AcroStep(a: nat, x: string, j: nat)
    requires a < |ACRONYMS| && SuffixOk(a, x) && j < |ACRONYMS|
    ensures Replace(PieceOf(Acro(a, x, 0), j), Swift(j), Fenced(ACRONYMS[j].wire)) == PieceOf(Acro(a, x, 0), j + 1)
  {
    var r, s := Fenced(ACRONYMS[j].wire), PieceOf(Acro(a, x, 0), j);
    if j < a {
      NoneInAcro(a, x, j);
      assert s == Swift(a) + x;
      ReplaceNone(s, Swift(j), r);
    } else if j == a {
      assert Swift(j) <= s && s[|Swift(j)|..] == x;
      NoneInSmall(j, x);
      ReplaceNone(x, Swift(j), r);
    } else {
      FencedIsSmall(a);
      NoUpperSum(Fenced(ACRONYMS[a].wire), x);
      NoneInSmall(j, s);
      ReplaceNone(s, Swift(j), r);
    }
  }

  lemma {:induction false} PieceStep(g: Group, j: nat)
    requires GroupOk(g) && j < |ACRONYMS|
    ensures Replace(PieceOf(g, j), Swift(j), Fenced(ACRONYMS[j].wire)) == PieceOf(g, j + 1)
  {
    match g
    case Word(w) =>
      CapitalizedShape(w);
      NoneInWord(j, Capitalized(w));
      ReplaceNone(Capitalized(w), Swift(j), Fenced(ACRONYMS[j].wire));
    case Acro(a, x, _) => AcroStep(a, x, j);
  }

  // ----- Pieces stay apart

  lemma {:induction false} SwiftEnds(i: nat)
    requires i < |ACRONYMS|
    ensures !IsInner(Swift(i)[|Swift(i)| - 1]) && Swift(i)[|Swift(i)| - 1] !in {'i', 'G'}
  {
  }

  lemma {:induction false} EndsInI(a: string)
    ensures EndsWith(a, "Gi") ==> a[|a| - 1] == 'i' && a[|a| - 2] == 'G'
  {
    assert EndsWith(a, "Gi") ==> a[|a| - 2..][0] == a[|a| - 2] && a[|a| - 2..][1] == a[|a| - 1];
  }

  lemma {:induction false} ApartByEnds(j: nat, a: string, b: string)
    requires j < |ACRONYMS| && a != "" && !IsInner(a[|a| - 1])
    requires b != "" ==> IsUpper(b[0]) || b[0] == '_'
    requires EndsWith(a, "Gi") ==> b == "" || b[0] != 'B'
    ensures Apart(Swift(j), a, b)
  {
    var p := Swift(j);
    forall k | 0 < k < |p| && EndsWith(a, p[..k]) ensures !(p[k..] <= b) {
      assert a[|a| - k..][k - 1] == p[..k][k - 1] == p[k - 1];
      assert j == 5 && k == 2 ==> p[..k] == "Gi";
      if p[k..] <= b {
        assert b[0] == p[k..][0] == p[k];
        BeforeCapital(j, k);
      }
    }
  }

  lemma {:induction false} SmallEnd(a: string)
    requires a != "" && IsSmall(a[|a| - 1]) && (|a| >= 2 ==> a[|a| - 2] != 'G')
    ensures !IsInner(a[|a| - 1]) && !EndsWith(a, "Gi")
  {
    EndsInI(a);
  }

  lemma {:induction false} SuffixEnds(s: string, x: string)
    requires s != "" && !IsInner(s[|s| - 1]) && s[|s| - 1] !in {'i', 'G'} && AllSmall(x)
    ensures !IsInner((s + x)[|s + x| - 1]) && !EndsWith(s + x, "Gi")
  {
    if x == "" {
      assert s + x == s;
      EndsInI(s);
    } else {
      var a := s + x;
      assert a[|a| - 1] == x[|x| - 1];
      assert a[|a| - 2] == if |x| >= 2 then x[|x| - 2] else s[|s| - 1];
      SmallEnd(a);
    }
  }

  lemma {:induction false} AcroEnds(a: nat, x: string, j: nat)
    requires a < |ACRONYMS| && AllSmall(x)
    ensures var s := PieceOf(Acro(a, x, 0), j); s != "" && !IsInner(s[|s| - 1]) && !EndsWith(s, "Gi")
  {
    SwiftEnds(a);
    FencedIsSmall(a);
    SuffixEnds(if a < j then Fenced(ACRONYMS[a].wire) else Swift(a), x);
  }

  lemma {:induction false} WordEnds(w: string)
    requires ComponentOk(w) && |w| >= 2
    ensures var a := Capitalized(w); a != "" && !IsInner(a[|a| - 1]) && (EndsWith(a, "Gi") ==> w == "gi")
  {
    CapitalizedShape(w);
    EndsInI(Capitalized(w));
  }

  lemma {:induction false} PieceStart(g: Group, j: nat)
    requires GroupOk(g)
    ensures PieceOf(g, j) != ""
    ensures var c := PieceOf(g, j)[0];
            (IsUpper(c) || c == '_') && (c in {'I', 'U', 'J', 'E', 'G', '_'} || (g.Word? && c == ToUpper(g.word[0])))
  {
    match g
    case Word(w) => CapitalizedShape(w);
    case Acro(a, x, _) => FencedIsSmall(a);
  }

  lemma {:induction false} HeadOk(cs: seq<string>)
    requires cs != [] && ComponentsOk(cs)
    ensures GroupOk(Head(cs)) && ComponentsOk(Rest(cs)) && ComponentOk(cs[0]) && ComponentsOk(cs[1..])
  {
    HeadSuffix(cs);
  }

  /** The rest of a property name is empty or begins with a capital or an underscore. */
  lemma {:induction false} BodyStart(cs: seq<string>, j: nat)
    requires ComponentsOk(cs)
    ensures Body(cs, j) != "" <==> cs != []
    ensures Body(cs, j) != "" ==> IsUpper(Body(cs, j)[0]) || Body(cs, j)[0] == '_'
    ensures cs != [] ==> PieceOf(Head(cs), j) != "" && Body(cs, j)[0] == PieceOf(Head(cs), j)[0]
  {
    if cs != [] {
      HeadOk(cs);
      PieceStart(Head(cs), j);
    }
  }

  /** A capital that begins no acronym is the first letter of a word. */
  lemma {:induction false} WordStart(cs: seq<string>, j: nat)
    requires ComponentsOk(cs) && Body(cs, j) != "" && Body(cs, j)[0] !in {'I', 'U', 'J', 'E', 'G', '_'}
    ensures cs != [] && cs[0] != "" && Body(cs, j)[0] == ToUpper(cs[0][0]) && Head(cs) == Word(cs[0])
  {
    BodyStart(cs, j);
    HeadOk(cs);
    PieceStart(Head(cs), j);
  }

  lemma {:induction false} WordBody(cs: seq<string>, j: nat)
    requires cs != [] && Head(cs).Word?
    ensures Body(cs, j) == Capitalized(cs[0]) + Body(cs[1..], j)
  {
  }

  lemma {:induction false} LetterBefore(w: string, b: string, p: string)
    requires ComponentOk(w) && p <= Capitalized(w) + b && |p| >= 2 && IsUpper(p[1])
    ensures |w| == 1 && p[0] == ToUpper(w[0]) && p[1..] <= b
  {
    var u := Capitalized(w);
    CapitalizedShape(w);
    PrefixLetters(p, u + b);
    assert |w| == 1;
    assert p == (u + b)[..|p|] && (u + b)[1..|p|] == b[..|p| - 1];
  }

  /** Two capitals in a row: a word of one letter. */
  lemma {:induction false} LetterThen(cs: seq<string>, j: nat, p: string)
    requires cs != [] && ComponentsOk(cs) && Head(cs).Word? && p <= Body(cs, j) && |p| >= 2 && IsUpper(p[1])
    ensures |cs[0]| == 1 && p[0] == ToUpper(cs[0][0]) && p[1..] <= Body(cs[1..], j)
  {
    WordBody(cs, j);
    LetterBefore(cs[0], Body(cs[1..], j), p);
  }

  lemma {:induction false} PlainLetterThen(cs: seq<string>, j: nat, p: string, c: char)
    requires ComponentsOk(cs) && p <= Body(cs, j) && |p| >= 2 && IsUpper(p[1])
    requires IsLower(c) && p[0] == ToUpper(c) && p[0] !in {'I', 'U', 'J', 'E', 'G', '_'}
    ensures cs != [] && cs[0] == [c] && p[1..] <= Body(cs[1..], j)
  {
    assert Body(cs, j)[0] == p[0];
    WordStart(cs, j);
    LetterThen(cs, j, p);
    assert cs[0] == [cs[0][0]] && ComponentOk(cs[0]);
  }

  lemma {:induction false} SmallWithin(p: string, u: string, b: string)
    requires u != "" && p <= u + b && (b != "" ==> !IsSmall(b[0])) && forall i :: 1 <= i < |p| ==> IsSmall(p[i])
    ensures p <= u
  {
    assert b != "" ==> (u + b)[|u|] == b[0];
    PrefixOfSum(p, u, b);
  }

  lemma {:induction false} Uncapitalized(w: string, p: string, low: string)
    requires ComponentOk(w) && ComponentOk(low) && |low| == |p| && p <= Capitalized(w) && p[0] == ToUpper(low[0])
    requires forall i :: 1 <= i < |p| ==> p[i] == low[i]
    ensures low <= w
  {
    CapitalizedShape(w);
    assert forall i :: 0 <= i < |p| ==> p[i] == Capitalized(w)[i];
  }

  /** A capital and small letters: a word that begins with them. */
  lemma {:induction false} WordSpells(cs: seq<string>, j: nat, p: string, low: string)
    requires ComponentsOk(cs) && p != "" && p <= Body(cs, j) && p[0] !in {'I', 'U', 'J', 'E', 'G', '_'}
    requires ComponentOk(low) && |low| == |p| && p[0] == ToUpper(low[0]) && forall i :: 1 <= i < |p| ==> p[i] == low[i]
    ensures cs != [] && low <= cs[0]
  {
    assert Body(cs, j)[0] == p[0];
    WordStart(cs, j);
    HeadOk(cs);
    WordBody(cs, j);
    CapitalizedShape(cs[0]);
    BodyStart(cs[1..], j);
    SmallWithin(p, Capitalized(cs[0]), Body(cs[1..], j));
    Uncapitalized(cs[0], p, low);
  }

  lemma {:induction false} IdAhead(cs: seq<string>, j: nat)
    requires ComponentsOk(cs) && cs != [] && "D" <= Body(cs[1..], j)
    ensures |cs| > 1 && "d" <= cs[1]
  {
    WordSpells(cs[1..], j, "D", "d");
  }

  lemma {:induction false} IdsAhead(cs: seq<string>, j: nat)
    requires ComponentsOk(cs) && cs != [] && "Ds" <= Body(cs[1..], j)
    ensures |cs| > 1 && "ds" <= cs[1]
  {
    WordSpells(cs[1..], j, "Ds", "ds");
  }

  lemma {:induction false} TagAhead(cs: seq<string>, j: nat)
    requires ComponentsOk(cs) && cs != [] && "Tag" <= Body(cs[1..], j)
    ensures |cs| > 1 && "tag" <= cs[1]
  {
    WordSpells(cs[1..], j, "Tag", "tag");
  }

  lemma {:induction false} BAhead(cs: seq<string>, j: nat)
    requires ComponentsOk(cs) && cs != [] && "B" <= Body(cs[1..], j)
    ensures |cs| > 1 && "b" <= cs[1]
  {
    WordSpells(cs[1..], j, "B", "b");
  }

  lemma {:induction false} UrlAhead(cs: seq<string>, j: nat)
    requires ComponentsOk(cs) && cs != [] && "RL" <= Body(cs[1..], j)
    ensures |cs| > 2 && cs[1] == "r" && "l" <= cs[2]
  {
    PlainLetterThen(cs[1..], j, "RL", 'r');
    assert "RL"[1..] == "L" && cs[1..][1..] == cs[2..];
    WordSpells(cs[2..], j, "L", "l");
  }

  lemma {:induction false} JsonAhead(cs: seq<string>, j: nat)
    requires ComponentsOk(cs) && cs != [] && "SON" <= Body(cs[1..], j)
    ensures |cs| > 3 && cs[1] == "s" && cs[2] == "o" && "n" <= cs[3]
  {
    PlainLetterThen(cs[1..], j, "SON", 's');
    assert "SON"[1..] == "ON" && cs[1..][1..] == cs[2..];
    PlainLetterThen(cs[2..], j, "ON", 'o');
    assert "ON"[1..] == "N" && cs[2..][1..] == cs[3..];
    WordSpells(cs[3..], j, "N", "n");
  }

  /** The first two letters of an acronym that the first replacement left. */
  lemma {:induction false} AcroLetters(cs: seq<string>)
    requires cs != [] && ComponentsOk(cs) && Head(cs).Acro? && |Body(cs, 1)| >= 2
    ensures var b, a := Body(cs, 1), Head(cs).index;
            b[0] == '_' || (a > 0 && b[0] == Swift(a)[0] && b[1] == Swift(a)[1])
  {
    var a := Head(cs).index;
    FencedIsSmall(a);
    BodyStart(cs, 1);
    if a > 0 {
      assert Body(cs, 1)[1] == PieceOf(Head(cs), 1)[1] == Swift(a)[1];
    }
  }

  lemma {:induction false} TwoLetters(a: nat)
    requires 0 < a < |ACRONYMS|
    ensures !(Swift(a)[0] == 'U' && Swift(a)[1] == 'I')
    ensures Swift(a)[0] == 'I' ==> a == 6
  {
  }

  lemma {:induction false} PrefixLetters(p: string, b: string)
    requires p <= b && |p| >= 2
    ensures |b| >= 2 && b[0] == p[0] && b[1] == p[1]
  {
  }

  lemma {:induction false} NotLettersId(cs: seq<string>)
    requires cs != [] && ComponentsOk(cs) && "ID" <= Body(cs, 1) && Head(cs).Word?
    ensures |cs| > 1 && cs[0] == "i" && "d" <= cs[1]
  {
    LetterThen(cs, 1, "ID");
    assert "ID"[1..] == "D";
    IdAhead(cs, 1);
    assert ComponentOk(cs[0]) && cs[0] == [cs[0][0]];
  }

  /** Before `UUID` is replaced, `ID` comes from `id`, or from `i` and a word in `d` but not in `ds`. */
  lemma {:induction false} IdStart(cs: seq<string>)
    requires ComponentsOk(cs) && "ID" <= Body(cs, 1)
    ensures cs != [] && Head(cs).Acro? && Head(cs).index == 6
  {
    PrefixLetters("ID", Body(cs, 1));
    BodyStart(cs, 1);
    if Head(cs).Word? {
      NotLettersId(cs);
    } else {
      AcroLetters(cs);
      TwoLetters(Head(cs).index);
    }
  }

  lemma {:induction false} UStart(cs: seq<string>)
    requires ComponentsOk(cs) && "UID" <= Body(cs, 1)
    ensures cs != [] && Head(cs).Word?
  {
    PrefixLetters("UID", Body(cs, 1));
    BodyStart(cs, 1);
    if Head(cs).Acro? {
      AcroLetters(cs);
      TwoLetters(Head(cs).index);
    }
  }

  lemma {:induction false} UuidAhead(cs: seq<string>)
    requires ComponentsOk(cs) && cs != [] && "UID" <= Body(cs[1..], 1)
    ensures |cs| > 2 && cs[1] == "u" && Head(cs[2..]).Acro? && Head(cs[2..]).index == 6
  {
    UStart(cs[1..]);
    LetterThen(cs[1..], 1, "UID");
    assert "UID"[1..] == "ID" && cs[1..][1..] == cs[2..];
    assert ComponentOk(cs[1]) && cs[1] == [cs[1][0]];
    IdStart(cs[2..]);
  }

  lemma {:induction false} SwiftTail(j: nat)
    requires j < |ACRONYMS|
    ensures (j == 0 ==> Swift(j)[1..] == "Ds") && (j == 1 ==> Swift(j)[1..] == "UID")
    ensures (j == 2 ==> Swift(j)[1..] == "SON") && (j == 3 ==> Swift(j)[1..] == "RL")
    ensures (j == 4 ==> Swift(j)[1..] == "Tag") && (j == 5 ==> Swift(j)[1..] == "iB")
    ensures j == 6 ==> Swift(j)[1..] == "D"
  {
  }

  lemma {:induction false} IdHead(cs: seq<string>)
    requires cs != [] && Head(cs).Acro? && Head(cs).index == 6
    ensures cs[0] == "id" || (|cs| > 1 && cs[0] == "i" && "d" <= cs[1] && !("ds" <= cs[1]))
  {
  }

  lemma {:induction false} UuidCompleted(cs: seq<string>)
    requires cs != [] && ComponentsOk(cs) && "UID" <= Body(cs[1..], 1) && cs[0] == "u"
    ensures Head(cs).Acro?
  {
    UuidAhead(cs);
    IdHead(cs[2..]);
  }

  lemma {:induction false} JsonCompleted(cs: seq<string>, j: nat)
    requires cs != [] && ComponentsOk(cs) && "SON" <= Body(cs[1..], j) && cs[0] == "j"
    ensures Head(cs).Acro?
  {
    JsonAhead(cs, j);
  }

  lemma {:induction false} UrlCompleted(cs: seq<string>, j: nat)
    requires cs != [] && ComponentsOk(cs) && "RL" <= Body(cs[1..], j) && cs[0] == "u"
    ensures Head(cs).Acro?
  {
    UrlAhead(cs, j);
  }

  lemma {:induction false} TagCompleted(cs: seq<string>, j: nat)
    requires cs != [] && ComponentsOk(cs) && "Tag" <= Body(cs[1..], j) && cs[0] == "e"
    ensures Head(cs).Acro?
  {
    TagAhead(cs, j);
  }

  lemma {:induction false} IdCompleted(cs: seq<string>, j: nat)
    requires cs != [] && ComponentsOk(cs) && cs[0] == "i" && ("D" <= Body(cs[1..], j) || "Ds" <= Body(cs[1..], j))
    ensures Head(cs).Acro?
  {
    if "Ds" <= Body(cs[1..], j) {
      IdsAhead(cs, j);
    } else {
      IdAhead(cs, j);
    }
  }

  lemma {:induction false} NoSmallStart(cs: seq<string>, j: nat)
    requires ComponentsOk(cs)
    ensures !("iB" <= Body(cs, j))
  {
    BodyStart(cs, j);
  }

  /** When the rest of the name completes the single letter before it, the letter does not stand alone. */
  lemma {:induction false} Completed(cs: seq<string>, j: nat)
    requires cs != [] && ComponentsOk(cs) && j < |ACRONYMS| && Swift(j)[1..] <= Body(cs[1..], j)
    requires cs[0] == [ToLower(Swift(j)[0])]
    ensures Head(cs).Acro?
  {
    SwiftTail(j);
    if j == 0 || j == 6 {
      IdCompleted(cs, j);
    } else if j == 1 {
      UuidCompleted(cs);
    } else if j == 2 {
      JsonCompleted(cs, j);
    } else if j == 3 {
      UrlCompleted(cs, j);
    } else if j == 4 {
      TagCompleted(cs, j);
    } else {
      NoSmallStart(cs[1..], j);
    }
  }

  /** A group of one letter is not completed to an acronym by what follows it. */
  lemma {:induction false} NotCompleted(cs: seq<string>, j: nat)
    requires cs != [] && ComponentsOk(cs) && Head(cs).Word? && j < |ACRONYMS|
    requires |cs[0]| == 1 && ToUpper(cs[0][0]) == Swift(j)[0]
    ensures !(Swift(j)[1..] <= Body(cs[1..], j))
  {
    assert ComponentOk(cs[0]) && cs[0] == [cs[0][0]];
    if Swift(j)[1..] <= Body(cs[1..], j) {
      Completed(cs, j);
    }
  }

  lemma {:induction false} LetterApart(cs: seq<string>, j: nat)
    requires cs != [] && ComponentsOk(cs) && Head(cs).Word? && |cs[0]| == 1 && j < |ACRONYMS|
    ensures Apart(Swift(j), Capitalized(cs[0]), Body(cs[1..], j))
  {
    var p, a, b := Swift(j), Capitalized(cs[0]), Body(cs[1..], j);
    assert ComponentOk(cs[0]);
    CapitalizedShape(cs[0]);
    forall k | 0 < k < |p| && EndsWith(a, p[..k]) ensures !(p[k..] <= b) {
      assert k == 1 && a[0] == p[..1][0] == p[0];
      NotCompleted(cs, j);
    }
  }

  lemma {:induction false} AfterGi(cs: seq<string>, j: nat)
    requires cs != [] && ComponentsOk(cs) && Head(cs).Word? && cs[0] == "gi"
    ensures Body(cs[1..], j) == "" || Body(cs[1..], j)[0] != 'B'
  {
    if "B" <= Body(cs[1..], j) {
      BAhead(cs, j);
    }
  }

  lemma {:induction false} WordApartFrom(w: string, b: string, j: nat)
    requires ComponentOk(w) && |w| >= 2 && j < |ACRONYMS| && (b != "" ==> IsUpper(b[0]) || b[0] == '_')
    requires w == "gi" ==> b == "" || b[0] != 'B'
    ensures Apart(Swift(j), Capitalized(w), b)
  {
    WordEnds(w);
    ApartByEnds(j, Capitalized(w), b);
  }

  lemma {:induction false} WordApart(cs: seq<string>, j: nat)
    requires cs != [] && ComponentsOk(cs) && Head(cs).Word? && |cs[0]| >= 2 && j < |ACRONYMS|
    ensures Apart(Swift(j), Capitalized(cs[0]), Body(cs[1..], j))
  {
    BodyStart(cs[1..], j);
    if cs[0] == "gi" {
      AfterGi(cs, j);
    }
    WordApartFrom(cs[0], Body(cs[1..], j), j);
  }

  lemma {:induction false} GroupApart(cs: seq<string>, j: nat)
    requires cs != [] && ComponentsOk(cs) && j < |ACRONYMS|
    ensures Apart(Swift(j), PieceOf(Head(cs), j), Body(Rest(cs), j))
  {
    HeadOk(cs);
    match Head(cs)
    case Word(w) =>
      if |w| == 1 {
        LetterApart(cs, j);
      } else {
        WordApart(cs, j);
      }
    case Acro(a, x, _) =>
      AcroEnds(a, x, j);
      BodyStart(Rest(cs), j);
      ApartByEnds(j, PieceOf(Head(cs), j), Body(Rest(cs), j));
  }

  /** The `j`-th replacement turns the `j`-th form of the name into the next one. */
  lemma {:induction false} StageStep(cs: seq<string>, j: nat)
    requires ComponentsOk(cs) && j < |ACRONYMS|
    ensures Replace(Body(cs, j), Swift(j), Fenced(ACRONYMS[j].wire)) == Body(cs, j + 1)
    decreases |cs|
  {
    if cs != [] {
      HeadOk(cs);
      GroupApart(cs, j);
      ReplaceConcat(Swift(j), Fenced(ACRONYMS[j].wire), PieceOf(Head(cs), j), Body(Rest(cs), j));
      PieceStep(Head(cs), j);
      StageStep(Rest(cs), j);
    }
  }

  lemma {:induction false} NameStep(first: string, cs: seq<string>, j: nat)
    requires FirstOk(first) && ComponentsOk(cs) && j < |ACRONYMS|
    ensures Replace(first + Body(cs, j), Swift(j), Fenced(ACRONYMS[j].wire)) == first + Body(cs, j + 1)
  {
    SmallEnd(first);
    BodyStart(cs, j);
    ApartByEnds(j, first, Body(cs, j));
    ReplaceConcat(Swift(j), Fenced(ACRONYMS[j].wire), first, Body(cs, j));
    NoneInSmall(j, first);
    ReplaceNone(first, Swift(j), Fenced(ACRONYMS[j].wire));
    StageStep(cs, j);
  }

  lemma {:induction false} NormalizeName(first: string, cs: seq<string>, j: nat)
    requires FirstOk(first) && ComponentsOk(cs) && j <= |ACRONYMS|
    ensures Normalize(first + Body(cs, j), j) == first + Body(cs, |ACRONYMS|)
    decreases |ACRONYMS| - j
  {
    if j < |ACRONYMS| {
      NameStep(first, cs, j);
      NormalizeName(first, cs, j + 1);
    }
  }

  // ----- Words

  lemma {:induction false} LoweredSmall(s: string)
    requires NoUpper(s)
    ensures Lowered(s) == s
  {
  }

  lemma {:induction false} WordsSmall(c: string, d: string, current: string)
    requires NoUpper(c)
    ensures Words(c + d, current) == Words(d, current + c)
    decreases |c|
  {
    if c == "" {
      assert c + d == d && current + c == current;
    } else {
      assert (c + d)[1..] == c[1..] + d;
      WordsSmall(c[1..], d, current + [c[0]]);
      assert current + [c[0]] + c[1..] == current + c;
    }
  }

  /** One word: small letters, with perhaps a capital in front. */
  ghost predicate OneWord(c: string)
  {
    c != "" && '_' !in c && forall i :: 1 <= i < |c| ==> !IsUpper(c[i])
  }

  lemma {:induction false} WordsAfter(c: string, d: string)
    requires OneWord(c) && (d != "" ==> IsUpper(d[0]))
    ensures Words(c + d, "") == [Lowered(c)] + Words(d, "")
  {
    assert (c + d)[1..] == c[1..] + d && "" + [c[0]] == [c[0]];
    WordsSmall(c[1..], d, [c[0]]);
    assert [c[0]] + c[1..] == c;
    assert Words(c + d, "") == Words(d, c);
    if d != "" {
      assert "" + [d[0]] == [d[0]];
    }
  }

  lemma {:induction false} FindInSum(c: string, rest: string)
    requires '_' !in c
    ensures FindUnderscore(c + rest) == |c| + FindUnderscore(rest)
  {
    if c == "" {
      assert c + rest == rest;
    } else {
      assert (c + rest)[1..] == c[1..] + rest && c[0] in c;
      FindInSum(c[1..], rest);
    }
  }

  /** The components of `rest` after its first one. */
  function AfterFirst(rest: string): seq<string>
  {
    var n := FindUnderscore(rest);
    if n == |rest| then [] else SplitOmit(rest[n + 1..])
  }

  lemma {:induction false} SplitFirst(s: string)
    requires FindUnderscore(s) > 0
    ensures SplitOmit(s) == [s[..FindUnderscore(s)]] + AfterFirst(s)
  {
  }

  lemma {:induction false} SameAfterFirst(s: string, n: nat, t: string, m: nat)
    requires FindUnderscore(s) == n && FindUnderscore(t) == m && (n == |s| <==> m == |t|)
    requires n < |s| ==> s[n + 1..] == t[m + 1..]
    ensures AfterFirst(s) == AfterFirst(t)
  {
  }

  lemma {:induction false} AfterFirstOfSum(c: string, rest: string)
    requires '_' !in c
    ensures AfterFirst(c + rest) == AfterFirst(rest)
  {
    FindInSum(c, rest);
    var n := FindUnderscore(rest);
    if n < |rest| {
      DropSum(c, rest, n + 1);
    }
    SameAfterFirst(c + rest, |c| + n, rest, n);
  }

  lemma {:induction false} SplitAfterWord(c: string, rest: string)
    requires c != "" && '_' !in c
    ensures SplitOmit(c + rest) == [c + rest[..FindUnderscore(rest)]] + AfterFirst(rest)
  {
    FindInSum(c, rest);
    TakeSum(c, rest, FindUnderscore(rest));
    AfterFirstOfSum(c, rest);
    SplitFirst(c + rest);
  }

  lemma {:induction false} TakeSum(c: string, rest: string, n: nat)
    requires n <= |rest|
    ensures (c + rest)[..|c| + n] == c + rest[..n]
  {
  }

  lemma {:induction false} DropSum(c: string, rest: string, n: nat)
    requires n <= |rest|
    ensures (c + rest)[|c| + n..] == rest[n..]
  {
  }

  /** A word in front of the rest of a name is its own word. */
  lemma {:induction false} WireWordsAfter(c: string, rest: string)
    requires OneWord(c) && (rest != "" ==> IsUpper(rest[0]) || rest[0] == '_')
    ensures WireWords(c + rest) == [Lowered(c)] + WireWords(rest)
  {
    var d, more := rest[..FindUnderscore(rest)], AfterFirst(rest);
    SplitAfterWord(c, rest);
    WordsAfter(c, d);
    FlatCons(c + d, more);
    FlatCons(d, more);
    RestWords(rest);
    Assoc([Lowered(c)], Words(d, ""), FlatWords(more));
  }

  lemma {:induction false} RestWords(rest: string)
    ensures WireWords(rest) == Words(rest[..FindUnderscore(rest)], "") + FlatWords(AfterFirst(rest))
  {
    var n := FindUnderscore(rest);
    if n > 0 {
      FlatCons(rest[..n], AfterFirst(rest));
    } else {
      assert Words(rest[..0], "") == [];
      assert [] + FlatWords(AfterFirst(rest)) == FlatWords(AfterFirst(rest));
    }
  }

  lemma {:induction false} FlatCons(c: string, more: seq<string>)
    ensures FlatWords([c] + more) == Words(c, "") + FlatWords(more)
  {
    assert ([c] + more)[1..] == more;
  }

  lemma {:induction false} WireWordsUnderscore(rest: string)
    ensures WireWords("_" + rest) == WireWords(rest)
  {
    assert ("_" + rest)[1..] == rest;
  }

  lemma {:induction false} WireWordsFenced(w: string, rest: string)
    requires w != "" && AllSmall(w)
    ensures WireWords(Fenced(w) + rest) == [w] + WireWords(rest)
  {
    NoUnderscore(w);
    assert Fenced(w) + rest == "_" + (w + ("_" + rest));
    WireWordsUnderscore(w + ("_" + rest));
    WireWordsAfter(w, "_" + rest);
    WireWordsUnderscore(rest);
    LoweredSmall(w);
  }

  lemma {:induction false} WireWordsPair(v: string, w: string, rest: string)
    requires v != "" && AllSmall(v) && w != "" && AllSmall(w)
    ensures WireWords(Fenced(v + "_" + w) + rest) == [v, w] + WireWords(rest)
  {
    NoUnderscore(v);
    assert Fenced(v + "_" + w) + rest == "_" + (v + (Fenced(w) + rest));
    WireWordsUnderscore(v + (Fenced(w) + rest));
    assert (Fenced(w) + rest)[0] == '_';
    WireWordsAfter(v, Fenced(w) + rest);
    WireWordsFenced(w, rest);
    LoweredSmall(v);
    Assoc([v], [w], WireWords(rest));
  }

  lemma {:induction false} ShortWords(i: nat, rest: string)
    requires i < |ACRONYMS|
    ensures WireWords(Fenced(ACRONYMS[i].wire) + rest) == AcronymWords(i) + WireWords(rest)
  {
    if i == 4 {
      WireWordsPair("e", "tag", rest);
      assert "e" + "_" + "tag" == ACRONYMS[4].wire;
    } else if i == 5 {
      WireWordsPair("gi", "b", rest);
      assert "gi" + "_" + "b" == ACRONYMS[5].wire;
    } else {
      WireWordsFenced(ACRONYMS[i].wire, rest);
    }
  }

  lemma {:induction false} LoweredCapitalized(w: string)
    requires ComponentOk(w)
    ensures Lowered(Capitalized(w)) == w && OneWord(Capitalized(w))
  {
    CapitalizedShape(w);
    NoUnderscore(w);
  }

  lemma {:induction false} SuffixWords(x: string, rest: string)
    requires AllSmall(x) && (rest != "" ==> IsUpper(rest[0]) || rest[0] == '_')
    ensures WireWords(x + rest) == (if x == "" then [] else [x]) + WireWords(rest)
  {
    if x == "" {
      assert x + rest == rest;
    } else {
      NoUnderscore(x);
      WireWordsAfter(x, rest);
      LoweredSmall(x);
    }
  }

  lemma {:induction false} PieceWords(g: Group, rest: string)
    requires GroupOk(g) && (rest != "" ==> IsUpper(rest[0]) || rest[0] == '_')
    ensures WireWords(PieceOf(g, |ACRONYMS|) + rest) == GroupWords(g) + WireWords(rest)
  {
    match g
    case Word(w) =>
      LoweredCapitalized(w);
      WireWordsAfter(Capitalized(w), rest);
    case Acro(a, x, _) =>
      Assoc(Fenced(ACRONYMS[a].wire), x, rest);
      ShortWords(a, x + rest);
      SuffixWords(x, rest);
      Assoc(AcronymWords(a), if x == "" then [] else [x], WireWords(rest));
  }

  lemma {:induction false} BodyWords(cs: seq<string>)
    requires ComponentsOk(cs)
    ensures WireWords(Body(cs, |ACRONYMS|)) == Returned(cs)
    decreases |cs|
  {
    if cs != [] {
      HeadOk(cs);
      BodyStart(Rest(cs), |ACRONYMS|);
      PieceWords(Head(cs), Body(Rest(cs), |ACRONYMS|));
      BodyWords(Rest(cs));
    }
  }

  // ----- The round trip

  /** What the conversion to a property name and back makes of any list of words. */
  lemma {:induction false} ReturnedKey(first: string, cs: seq<string>)
    requires FirstOk(first) && ComponentsOk(cs)
    ensures WireKey(PropertyName(Join([first] + cs))) == Join([first] + Returned(cs))
  {
    PropertyOfKey(first, cs);
    NormalizeName(first, cs, 0);
    BodyWords(cs);
    BodyStart(cs, |ACRONYMS|);
    NoUnderscore(first);
    WireWordsAfter(first, Body(cs, |ACRONYMS|));
    LoweredSmall(first);
  }

  predicate ListSmall(ws: seq<string>)
  {
    forall i :: 0 <= i < |ws| ==> AllSmall(ws[i])
  }

  lemma {:induction false} GroupSmall(g: Group)
    requires GroupOk(g)
    ensures ListSmall(GroupWords(g))
  {
    match g
    case Word(_) =>
    case Acro(a, x, _) => assert ListSmall(AcronymWords(a));
  }

  lemma {:induction false} ReturnedSmall(cs: seq<string>)
    requires ComponentsOk(cs)
    ensures ListSmall(Returned(cs))
    decreases |cs|
  {
    if cs != [] {
      HeadOk(cs);
      GroupSmall(Head(cs));
      ReturnedSmall(Rest(cs));
    }
  }

  /** The first group is not what its components say: a clash, or the letters of `UUID` with a clash inside. */
  predicate Broken(cs: seq<string>)
    requires cs != []
  {
    Clash(cs) || (Head(cs).Acro? && Head(cs).size == 4)
  }

  lemma {:induction false} BrokenHead(cs: seq<string>)
    requires cs != [] && Broken(cs)
    ensures var ws := GroupWords(Head(cs)); ws[0] != cs[0] || (|ws| > 1 && |cs| > 1 && ws[1] != cs[1])
    ensures Clash(cs) || (|cs| > 3 && Clash(cs[2..]))
  {
    assert |cs| > 3 ==> cs[2..][0] == cs[2] && cs[2..][1] == cs[3];
  }

  lemma {:induction false} BrokenDiffers(cs: seq<string>)
    requires cs != [] && Broken(cs)
    ensures Returned(cs) != cs && AnyClash(cs)
  {
    BrokenHead(cs);
    var ws := GroupWords(Head(cs));
    assert Returned(cs)[0] == ws[0] && (|ws| > 1 ==> Returned(cs)[1] == ws[1]);
    assert cs[0..] == cs;
  }

  /** Otherwise the words of the group are its components. */
  lemma {:induction false} WholeHead(cs: seq<string>)
    requires cs != [] && !Broken(cs)
    ensures GroupWords(Head(cs)) + Rest(cs) == cs
    ensures Rest(cs) == cs[1..] || (|cs| > 1 && Rest(cs) == cs[2..] && !Clash(cs[1..]))
  {
    var g := Head(cs);
    assert "b"[1..] == "" && "tag"[3..] == "";
    if g.Word? {
      assert [cs[0]] + cs[1..] == cs;
    } else if g.size == 1 {
      assert GroupWords(g) == [cs[0]] && [cs[0]] + cs[1..] == cs;
    } else {
      assert cs[1] == "b" || cs[1] == "tag";
      assert GroupWords(g) == [cs[0], cs[1]] && [cs[0], cs[1]] + cs[2..] == cs;
    }
  }

  lemma {:induction false} ClashLater(cs: seq<string>)
    requires cs != [] && !Clash(cs)
    ensures AnyClash(cs) <==> AnyClash(cs[1..])
  {
    assert cs[0..] == cs;
    if i :| 0 <= i < |cs| && Clash(cs[i..]) {
      DropOfDrop(cs, 1, i);
      assert Clash(cs[1..][i - 1..]);
    }
    if i :| 0 <= i < |cs| - 1 && Clash(cs[1..][i..]) {
      DropOfDrop(cs, 1, i + 1);
      assert Clash(cs[i + 1..]);
    }
  }

  lemma {:induction false} ClashInRest(cs: seq<string>)
    requires cs != [] && !Broken(cs)
    ensures AnyClash(cs) <==> AnyClash(Rest(cs))
  {
    WholeHead(cs);
    ClashLater(cs);
    if Rest(cs) != cs[1..] {
      ClashLater(cs[1..]);
      assert cs[1..][1..] == cs[2..];
    }
  }

  lemma {:induction false} SameAfter(ws: seq<string>, a: seq<string>, b: seq<string>)
    ensures ws + a == ws + b <==> a == b
  {
    assert (ws + a)[|ws|..] == a && (ws + b)[|ws|..] == b;
  }

  lemma {:induction false} ReturnedIff(cs: seq<string>)
    ensures Returned(cs) == cs <==> !AnyClash(cs)
    decreases |cs|
  {
    if cs == [] {
    } else if Broken(cs) {
      BrokenDiffers(cs);
    } else {
      WholeHead(cs);
      ClashInRest(cs);
      ReturnedIff(Rest(cs));
      SameAfter(GroupWords(Head(cs)), Returned(Rest(cs)), Rest(cs));
    }
  }

  /** Converting a wire key to a property name and back is the identity exactly when no components clash. */
  lemma {:induction false} RoundTripIff(first: string, cs: seq<string>)
    requires FirstOk(first) && ComponentsOk(cs)
    ensures WireKey(PropertyName(Join([first] + cs))) == Join([first] + cs) <==> !AnyClash(cs)
  {
    ReturnedKey(first, cs);
    ReturnedSmall(cs);
    ListPlain(first, Returned(cs));
    ListPlain(first, cs);
    SameAfter([first], Returned(cs), cs);
    ReturnedIff(cs);
  }

  /** Words of at least two letters other than `gi`; `e` and `b` occur in the spellings of two acronyms only. */
  predicate Ordinary(cs: seq<string>, i: nat)
    requires i < |cs|
  {
    || (|cs[i]| >= 2 && cs[i] != "gi")
    || (cs[i] == "gi" && i + 1 < |cs| && cs[i + 1] == "b")
    || (cs[i] == "e" && i + 1 < |cs| && cs[i + 1] == "tag")
    || (cs[i] == "b" && i > 0 && cs[i - 1] == "gi")
  }

  /** In particular, keys of ordinary words and acronyms come back. */
  lemma {:induction false} RoundTrip(first: string, cs: seq<string>)
    requires FirstOk(first) && ComponentsOk(cs) && forall i :: 0 <= i < |cs| ==> Ordinary(cs, i)
    ensures WireKey(PropertyName(Join([first] + cs))) == Join([first] + cs)
  {
    forall i | 0 <= i < |cs| ensures !Clash(cs[i..]) {
      assert Ordinary(cs, i);
      assert cs[i..][0] == cs[i] && (i + 1 < |cs| ==> cs[i..][1] == cs[i + 1]);
    }
    RoundTripIff(first, cs);
  }

  lemma {:induction false} JoinTwo(a: string, b: string)
    ensures Join([a, b]) == a + "_" + b
  {
    assert [a, b][1..] == [b];
    assert Join([b]) == b;
  }

  lemma {:induction false} JoinCons(a: string, cs: seq<string>)
    requires cs != []
    ensures Join([a] + cs) == a + "_" + Join(cs)
  {
    assert ([a] + cs)[1..] == cs;
  }

  lemma {:induction false} JoinOfThree(first: string, a: string, b: string)
    ensures Join([first] + [a, b]) == first + "_" + (a + "_" + b)
  {
    JoinTwo(a, b);
    JoinCons(first, [a, b]);
  }

  lemma {:induction false} JoinOfFour(first: string, a: string, b: string, c: string)
    ensures Join([first] + [a, b, c]) == first + "_" + (a + "_" + (b + "_" + c))
  {
    JoinTwo(b, c);
    JoinCons(a, [b, c]);
    assert [a] + [b, c] == [a, b, c];
    JoinCons(first, [a, b, c]);
  }

  lemma {:induction false} GiBar(cs: seq<string>)
    requires cs == ["gi", "bar"]
    ensures ComponentsOk(cs) && Returned(cs) == ["gi", "b", "ar"]
  {
    assert cs[2..] == [] && Returned(cs[2..]) == [];
    assert "b" <= cs[1] && "bar"[1..] == "ar";
    assert Head(cs) == Acro(5, "ar", 2);
    assert GroupWords(Head(cs)) == ["gi", "b", "ar"];
  }

  lemma {:induction false} GiBarKeys(first: string, cs: seq<string>, back: seq<string>)
    requires first == "foo" && cs == ["gi", "bar"] && back == ["gi", "b", "ar"]
    ensures Join([first] + cs) == "foo_gi_bar" && Join([first] + back) == "foo_gi_b_ar"
  {
    JoinOfThree(first, "gi", "bar");
    JoinOfFour(first, "gi", "b", "ar");
  }

  /** A concrete key, `foo_gi_bar`, that comes back as another one. */
  lemma {:induction false} ClashingKey(first: string, cs: seq<string>)
    requires first == "foo" && cs == ["gi", "bar"]
    ensures Join([first] + cs) == "foo_gi_bar" && WireKey(PropertyName(Join([first] + cs))) == "foo_gi_b_ar"
  {
    GiBar(cs);
    GiBarKeys(first, cs, Returned(cs));
    assert FirstOk(first);
    ReturnedKey(first, cs);
  }

  lemma {:induction false} LetterD(cs: seq<string>)
    requires cs == ["i", "d"]
    ensures ComponentsOk(cs) && Returned(cs) == ["id"]
  {
    assert cs[2..] == [] && Returned(cs[2..]) == [];
    assert "d" <= cs[1] && "d"[1..] == "";
    assert Head(cs) == Acro(6, "", 2);
    assert GroupWords(Head(cs)) == ["id"];
  }

  lemma {:induction false} LetterKeys(first: string, cs: seq<string>, back: seq<string>)
    requires first == "foo" && cs == ["i", "d"] && back == ["id"]
    ensures Join([first] + cs) == "foo_i_d" && Join([first] + back) == "foo_id"
  {
    JoinOfThree(first, "i", "d");
    JoinTwo(first, "id");
    assert [first] + back == [first, "id"];
  }

  /** Single letters: `foo_i_d` comes back as `foo_id`. */
  lemma {:induction false} ClashingLetters(first: string, cs: seq<string>)
    requires first == "foo" && cs == ["i", "d"]
    ensures Join([first] + cs) == "foo_i_d" && WireKey(PropertyName(Join([first] + cs))) == "foo_id"
  {
    LetterD(cs);
    LetterKeys(first, cs, Returned(cs));
    assert FirstOk(first);
    ReturnedKey(first, cs);
  }
}
