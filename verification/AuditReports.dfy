/**
  What a reviewed baseline says about an inventory, number by number, and what the published summary says about the
  decisions.
 */
module AuditReports {
  import opened Common
  import opened Ordering
  import opened Permutations
  import opened AuditPolicy
  import opened ImageAudit

  // ----- Counts

  ghost predicate DistinctKeys(counts: seq<(string, int)>)
  {
    forall i, j :: 0 <= i < j < |counts| ==> counts[i].0 != counts[j].0
  }

  lemma {:induction false} DictIs(counts: seq<(string, int)>, key: string, n: int)
    requires DistinctKeys(counts)
    ensures (key in Dict(counts) && Dict(counts)[key] == n) <==> (key, n) in counts
  {
    if counts != [] {
      var front, last := counts[..|counts| - 1], counts[|counts| - 1];
      assert counts == front + [last];
      DictIs(front, key, n);
      if (key, n) in front {
        var i :| 0 <= i < |front| && front[i] == (key, n);
        assert counts[i].0 != last.0;
      }
    }
  }

  /** The counts list every value that occurs, once, with how often it does. */
  ghost predicate Tells(counts: seq<(string, int)>, values: seq<string>)
  {
    forall k, n :: (k, n) in counts <==> k in values && n == multiset(values)[k]
  }

  lemma {:induction false} CountOfIs(values: seq<string>, key: string, n: int)
    ensures (key in CountOf(values) && CountOf(values)[key] == n) <==> key in values && n == multiset(values)[key]
  {
  }

  lemma {:induction false} TellsIff(counts: seq<(string, int)>, values: seq<string>)
    requires DistinctKeys(counts)
    ensures Dict(counts) == CountOf(values) <==> Tells(counts, values)
  {
    var d, c := Dict(counts), CountOf(values);
    if Tells(counts, values) {
      forall k | k in d ensures k in c && c[k] == d[k] {
        DictIs(counts, k, d[k]);
      }
      forall k | k in c ensures k in d {
        DictIs(counts, k, c[k]);
      }
    }
    if d == c {
      forall k, n ensures (k, n) in counts <==> k in values && n == multiset(values)[k] {
        DictIs(counts, k, n);
        CountOfIs(values, k, n);
      }
    }
  }

  // ----- Baselines

  lemma {:induction false} AllPass<T>(p: T -> bool, s: seq<T>)
    requires forall x :: x in s ==> p(x)
    ensures Filter(p, s) == s
  {
    if s != [] {
      assert s[0] in s;
      AllPass(p, s[1..]);
    }
  }

  ghost predicate OneImage(inventory: seq<Finding>)
  {
    forall f, g :: f in inventory && g in inventory ==> f.core.image == g.core.image
  }

  lemma {:induction false} ImageValues(inventory: seq<Finding>, image: string)
    ensures image in Values(Map(ImageOf, inventory)) <==> exists f :: f in inventory && f.core.image == image
  {
    var images := Map(ImageOf, inventory);
    if image in images {
      var i :| 0 <= i < |images| && images[i] == image;
      MapAt(ImageOf, inventory, i);
      assert inventory[i] in inventory;
    }
    if f :| f in inventory && f.core.image == image {
      var i :| 0 <= i < |inventory| && inventory[i] == f;
      MapAt(ImageOf, inventory, i);
    }
  }

  lemma {:induction false} OneImageIff(inventory: seq<Finding>)
    requires inventory != []
    ensures |Values(Map(ImageOf, inventory))| == 1 <==> OneImage(inventory)
  {
    var images, image := Values(Map(ImageOf, inventory)), inventory[0].core.image;
    assert inventory[0] in inventory;
    ImageValues(inventory, image);
    forall x ensures x in images <==> exists f :: f in inventory && f.core.image == x {
      ImageValues(inventory, x);
    }
    if OneImage(inventory) {
      assert images == {image};
    }
    if |images| == 1 {
      OnlyMember(images, image);
      forall f | f in inventory ensures f.core.image == image {
        assert f.core.image in images;
      }
    }
  }

  lemma {:induction false} OnlyMember(s: set<string>, x: string)
    requires |s| == 1 && x in s
    ensures s == {x}
  {
    assert |s - {x}| == 0;
  }

  /**
    A baseline accepts an inventory of licenses exactly when that is not empty, within the size limit and of one image,
    and the baseline gives its number, its digest and how often each category and each severity occurs.
   */
  lemma {:induction false} CheckIff(b: Baseline, inventory: seq<Finding>, digest: Digest)
    requires DistinctKeys(b.categoryCounts) && DistinctKeys(b.severityCounts)
    requires forall f :: f in inventory ==> IsV2(f) && IsLicense(f)
    ensures Check(b, inventory, digest).None? <==>
            && inventory != [] && |inventory| <= 4096 && OneImage(inventory)
            && b.findingCount == |inventory| && b.digest == digest(Sort(TupleLess, Map(MatchKey, inventory)))
            && Tells(b.categoryCounts, Map(CategoryOf, inventory)) && Tells(b.severityCounts, Map(SeverityOf, inventory))
  {
    AllPass(IsLicense, inventory);
    SortLength(Map(MatchKey, inventory));
    TellsIff(b.categoryCounts, Map(CategoryOf, inventory));
    TellsIff(b.severityCounts, Map(SeverityOf, inventory));
    if inventory != [] {
      OneImageIff(inventory);
    }
  }

  lemma {:induction false} SortLength(keys: seq<seq<string>>)
    ensures |Sort(TupleLess, keys)| == |keys|
  {
    TupleLessIsStrictTotal();
    SortIsSorted(TupleLess, keys);
    assert |multiset(Sort(TupleLess, keys))| == |Sort(TupleLess, keys)| && |multiset(keys)| == |keys|;
  }

  // ----- The published summary

  /** Positions of the decisions with an identifier. */
  function DisposedAt(decisions: seq<Decision>): set<nat>
  {
    set i: nat | i < |decisions| && decisions[i].id.Some?
  }

  lemma {:induction false} DisposedCount(decisions: seq<Decision>)
    ensures |Filter(IsDisposed, decisions)| == |DisposedAt(decisions)|
  {
    if decisions != [] {
      var front, last := decisions[..|decisions| - 1], decisions[|decisions| - 1];
      assert decisions == front + [last];
      DisposedCount(front);
      FilterSnoc(IsDisposed, front, last);
      assert DisposedAt(decisions) == DisposedAt(front) + if last.id.Some? then {|front|} else {};
    } else {
      assert DisposedAt(decisions) == {};
    }
  }

  /** The summary counts the decisions, those with an identifier, the others, and each kind; and lists the identifiers. */
  lemma {:induction false} SummaryCounts(decisions: seq<Decision>)
    ensures var r := FindingSummary(decisions);
            && r.total == |decisions| && r.disposed == |DisposedAt(decisions)| && r.disposed + r.undispositioned == r.total
            && (forall k :: k in r.byKind <==> exists d :: d in decisions && d.finding.core.kind == k)
            && (forall k :: k in r.byKind ==> r.byKind[k] == multiset(Map(DecisionKind, decisions))[k])
            && (forall id :: id in r.ids <==> exists d :: d in decisions && d.id == Some(id))
  {
    DisposedCount(decisions);
    forall k ensures k in Map(DecisionKind, decisions) <==> exists d :: d in decisions && d.finding.core.kind == k {
      KindMember(decisions, k);
    }
  }

  lemma {:induction false} KindMember(decisions: seq<Decision>, k: string)
    ensures k in Map(DecisionKind, decisions) <==> exists d :: d in decisions && d.finding.core.kind == k
  {
    var kinds := Map(DecisionKind, decisions);
    if k in kinds {
      var i :| 0 <= i < |kinds| && kinds[i] == k;
      MapAt(DecisionKind, decisions, i);
      assert decisions[i] in decisions;
    }
    if d :| d in decisions && d.finding.core.kind == k {
      var i :| 0 <= i < |decisions| && decisions[i] == d;
      MapAt(DecisionKind, decisions, i);
    }
  }

  /** Enforcement passes exactly when every finding has an identifier; otherwise it says how many have none. */
  lemma {:induction false} EnforceIff(decisions: seq<Decision>)
    ensures Enforce(decisions).Ok? <==> forall i :: 0 <= i < |decisions| ==> decisions[i].id.Some?
    ensures Enforce(decisions).Err? ==> Enforce(decisions).error.Undispositioned? && Enforce(decisions).error.count == |decisions| - |DisposedAt(decisions)|
  {
    OpenOrDisposed(decisions);
    DisposedCount(decisions);
    FilterMembers(IsOpen, decisions);
    if Filter(IsOpen, decisions) != [] {
      assert Filter(IsOpen, decisions)[0] in decisions && IsOpen(Filter(IsOpen, decisions)[0]);
    } else {
      forall i | 0 <= i < |decisions| ensures decisions[i].id.Some? {
        assert decisions[i] in decisions;
      }
    }
  }

  lemma {:induction false} OpenOrDisposed(decisions: seq<Decision>)
    ensures |Filter(IsOpen, decisions)| + |Filter(IsDisposed, decisions)| == |decisions|
  {
    if decisions != [] {
      OpenOrDisposed(decisions[1..]);
    }
  }
}
