/**
  The way from a review to a passing audit: a baseline that a maintainer writes down truthfully is loaded, and the
  inventory it was written for passes.
 */
module AuditReview {
  import opened Common
  import opened Ordering
  import opened Permutations
  import opened AuditPolicy
  import opened ImageAudit
  import opened AuditReports

  // ----- Counting

  lemma {:induction false} TotalSnoc(counts: seq<(string, int)>, x: (string, int))
    ensures Total(counts + [x]) == Total(counts) + x.1
  {
    if counts == [] {
      assert [] + [x] == [x] && [x][1..] == [];
    } else {
      assert (counts + [x])[1..] == counts[1..] + [x];
      TotalSnoc(counts[1..], x);
    }
  }

  lemma {:induction false} TotalChanged(counts: seq<(string, int)>, i: nat, x: (string, int))
    requires i < |counts|
    ensures Total(counts[i := x]) == Total(counts) - counts[i].1 + x.1
  {
    if i > 0 {
      assert counts[i := x][1..] == counts[1..][i - 1 := x];
      TotalChanged(counts[1..], i - 1, x);
    } else {
      assert counts[0 := x][1..] == counts[1..];
    }
  }

  lemma {:induction false} OneMoreValue(front: seq<string>, v: string, k: string)
    ensures k in front + [v] <==> k in front || k == v
    ensures multiset(front + [v])[k] == multiset(front)[k] + if k == v then 1 else 0
    ensures Values(front + [v]) == Values(front) + {v}
  {
  }

  lemma {:induction false} TalliedValue(counts: seq<(string, int)>, values: seq<string>, i: nat)
    requires Tells(counts, values) && i < |counts|
    ensures counts[i].0 in values && counts[i].1 == multiset(values)[counts[i].0]
  {
    var k, n := counts[i].0, counts[i].1;
    assert counts[i] == (k, n);
    assert (k, n) in counts;
  }

  lemma {:induction false} NewValue(counts: seq<(string, int)>, front: seq<string>, v: string)
    requires DistinctKeys(counts) && Tells(counts, front) && v !in front
    ensures DistinctKeys(counts + [(v, 1)]) && Tells(counts + [(v, 1)], front + [v])
  {
    var more := counts + [(v, 1)];
    forall i | 0 <= i < |counts| ensures counts[i].0 != v {
      TalliedValue(counts, front, i);
    }
    assert multiset(front)[v] == 0;
    forall k, n ensures (k, n) in more <==> k in front + [v] && n == multiset(front + [v])[k] {
      OneMoreValue(front, v, k);
      assert (k, n) in counts <==> k in front && n == multiset(front)[k];
      assert (k, n) in more <==> (k, n) in counts || (k, n) == (v, 1);
    }
  }

  lemma {:induction false} OldValue(counts: seq<(string, int)>, front: seq<string>, v: string, i: nat)
    requires DistinctKeys(counts) && Tells(counts, front) && i < |counts| && counts[i].0 == v
    ensures DistinctKeys(counts[i := (v, counts[i].1 + 1)]) && Tells(counts[i := (v, counts[i].1 + 1)], front + [v])
  {
    var more := counts[i := (v, counts[i].1 + 1)];
    assert counts[i] in counts && counts[i] == (v, counts[i].1);
    forall k, n ensures (k, n) in more <==> k in front + [v] && n == multiset(front + [v])[k] {
      OneMoreValue(front, v, k);
      ChangedMember(counts, i, (v, counts[i].1 + 1), k, n);
    }
  }

  lemma {:induction false} ChangedMember(counts: seq<(string, int)>, i: nat, x: (string, int), k: string, n: int)
    requires DistinctKeys(counts) && i < |counts| && x.0 == counts[i].0
    ensures (k, n) in counts[i := x] <==> (k, n) == x || (k != x.0 && (k, n) in counts)
  {
    var more := counts[i := x];
    if (k, n) in more {
      var j :| 0 <= j < |more| && more[j] == (k, n);
      assert j != i ==> counts[j] == (k, n);
    }
    if k != x.0 && (k, n) in counts {
      var j :| 0 <= j < |counts| && counts[j] == (k, n);
      assert more[j] == (k, n);
    }
    assert more[i] == x;
  }

  /** Every list of values can be tallied: each value once, with how often it occurs. */
  lemma {:induction false} Tally(values: seq<string>) returns (counts: seq<(string, int)>)
    ensures DistinctKeys(counts) && Tells(counts, values) && Total(counts) == |values| && |counts| == |Values(values)|
  {
    if values == [] {
      return [];
    }
    var front, v := values[..|values| - 1], values[|values| - 1];
    assert values == front + [v];
    counts := Tally(front);
    OneMoreValue(front, v, v);
    if v in front {
      assert (v, multiset(front)[v]) in counts;
      var i :| 0 <= i < |counts| && counts[i] == (v, multiset(front)[v]);
      OldValue(counts, front, v, i);
      TotalChanged(counts, i, (v, counts[i].1 + 1));
      counts := counts[i := (v, counts[i].1 + 1)];
      assert Values(values) == Values(front);
    } else {
      NewValue(counts, front, v);
      TotalSnoc(counts, (v, 1));
      counts := counts + [(v, 1)];
      assert v !in Values(front);
    }
  }

  // ----- From the tally to the record

  function Entry(x: (string, int)): (string, Json) { (x.0, Number(x.1)) }

  lemma {:induction false} EntriesBack(counts: seq<(string, int)>)
    ensures Map(EntryCount, Map(Entry, counts)) == counts
  {
    var back := Map(EntryCount, Map(Entry, counts));
    forall i | 0 <= i < |counts| ensures back[i] == counts[i] {
      MapAt(Entry, counts, i);
      MapAt(EntryCount, Map(Entry, counts), i);
    }
  }

  lemma {:induction false} CountBound(values: seq<string>, k: string)
    requires k in values
    ensures 0 < multiset(values)[k] <= |values|
  {
    assert |multiset(values)| == |values|;
    assert multiset(values) == (multiset(values) - multiset{k}[k := multiset(values)[k]]) + multiset{k}[k := multiset(values)[k]];
  }

  predicate Printable(s: string) { forall i :: 0 <= i < |s| ==> s[i] >= ' ' }

  lemma {:induction false} TallyIsOk(counts: seq<(string, int)>, values: seq<string>, allowed: Option<set<string>>)
    requires Tells(counts, values) && 0 < |values| <= 4096 && |counts| == |Values(values)| <= 256
    requires forall k :: k in values ==> |k| <= 256 && Printable(k) && (allowed.Some? ==> k in allowed.value)
    ensures CountsOk(Map(Entry, counts), allowed)
  {
    assert values[0] in Values(values);
    var entries := Map(Entry, counts);
    forall i | 0 <= i < |entries| ensures EntryOk(entries[i], allowed) {
      MapAt(Entry, counts, i);
      TalliedValue(counts, values, i);
      CountBound(values, counts[i].0);
    }
  }

  lemma {:induction false} SortedTally(counts: seq<(string, int)>, values: seq<string>)
    requires DistinctKeys(counts) && Tells(counts, values)
    ensures DistinctKeys(Sort(PairLess, counts)) && Tells(Sort(PairLess, counts), values)
  {
    var t := Sort(PairLess, counts);
    SortedCountMembers(counts);
    PairLessIsStrictTotal();
    SortIsSorted(PairLess, counts);
    forall i, j | 0 <= i < j < |t| ensures t[i].0 != t[j].0 {
      if t[i].0 == t[j].0 {
        assert t[i] in counts && t[j] in counts && t[i] == (t[i].0, t[i].1) && t[j] == (t[j].0, t[j].1);
        assert t[i] == t[j];
        TwiceInSorted(counts, t, i, j);
      }
    }
  }

  lemma {:induction false} TwiceInSorted(counts: seq<(string, int)>, t: seq<(string, int)>, i: nat, j: nat)
    requires multiset(t) == multiset(counts) && i < j < |t| && t[i] == t[j]
    ensures !DistinctKeys(counts)
  {
    assert t == t[..i] + [t[i]] + t[i + 1..j] + [t[j]] + t[j + 1..];
    assert multiset(counts)[t[i]] >= 2;
    if DistinctKeys(counts) {
      AtMostOnce(counts, t[i]);
    }
  }

  lemma {:induction false} AtMostOnce(counts: seq<(string, int)>, x: (string, int))
    requires DistinctKeys(counts)
    ensures multiset(counts)[x] <= 1
  {
    if counts != [] {
      var front, last := counts[..|counts| - 1], counts[|counts| - 1];
      assert counts == front + [last];
      AtMostOnce(front, x);
      forall i | 0 <= i < |front| ensures front[i].0 != last.0 {
        assert counts[i] == front[i];
      }
    }
  }

  // ----- The review

  /** A license finding that a review can write down. */
  predicate ReviewableFinding(f: Finding, image: string)
  {
    && f.V2? && IsLicense(f) && !IsForbiddenLicense(f) && f.core.image == image
    && |f.core.category| <= 256 && Printable(f.core.category) && f.core.severity in SEVERITIES
  }

  /** An inventory that a review can write down: bounded, of one image, with no forbidden license. */
  ghost predicate Reviewable(inventory: seq<Finding>, image: string)
  {
    && 0 < |inventory| <= 4096 && image in IMAGES && |Values(Map(CategoryOf, inventory))| <= 256
    && forall f :: f in inventory ==> ReviewableFinding(f, image)
  }

  /** What the maintainer adds: who, why and until when, at most 90 days ahead. */
  datatype Signature = Signature(id: string, statement: string, expiresOn: int)

  ghost predicate Signed(s: Signature, today: int)
  {
    && 6 <= |s.id| <= 64 && 'A' <= s.id[0] <= 'Z' && (forall i :: 0 <= i < |s.id| ==> 'A' <= s.id[i] <= 'Z' || s.id[i] == '-')
    && 20 <= |s.statement| <= 2000 && Printable(s.statement)
    && today <= s.expiresOn <= today + 90
  }

  /** The record with the inventory's own numbers. */
  ghost predicate WritesDown(raw: RawBaseline, s: Signature, inventory: seq<Finding>, image: string, digest: Digest)
  {
    && raw.fields == BASELINE_FIELDS
    && raw.id == s.id && raw.image == image && raw.expiresOn == Some(s.expiresOn) && raw.statement == s.statement
    && raw.algorithm == ALGORITHM
    && raw.findingCount == |inventory| && raw.digest == digest(Sort(TupleLess, Map(MatchKey, inventory)))
    && (exists counts :: Listed(raw.categoryCounts, counts, Map(CategoryOf, inventory)))
    && (exists counts :: Listed(raw.severityCounts, counts, Map(SeverityOf, inventory)))
  }

  ghost predicate Listed(entries: seq<(string, Json)>, counts: seq<(string, int)>, values: seq<string>)
  {
    && entries == Map(Entry, counts) && DistinctKeys(counts) && Tells(counts, values)
    && Total(counts) == |values| && |counts| == |Values(values)|
  }

  /** Every reviewable inventory can be written down. */
  lemma {:induction false} CanBeWritten(s: Signature, inventory: seq<Finding>, image: string, digest: Digest) returns (raw: RawBaseline)
    ensures WritesDown(raw, s, inventory, image, digest)
  {
    var categories := Tally(Map(CategoryOf, inventory));
    var severities := Tally(Map(SeverityOf, inventory));
    assert Listed(Map(Entry, categories), categories, Map(CategoryOf, inventory));
    assert Listed(Map(Entry, severities), severities, Map(SeverityOf, inventory));
    raw := RawBaseline(BASELINE_FIELDS, s.id, image, Some(s.expiresOn), s.statement, ALGORITHM, |inventory|,
                       digest(Sort(TupleLess, Map(MatchKey, inventory))), Map(Entry, categories), Map(Entry, severities));
  }

  lemma {:induction false} CategoryValues(inventory: seq<Finding>, image: string, k: string)
    requires Reviewable(inventory, image) && k in Map(CategoryOf, inventory)
    ensures |k| <= 256 && Printable(k) && !IsForbiddenCategory(k)
  {
    MapMembers(CategoryOf, inventory);
    var f :| f in inventory && CategoryOf(f) == k;
    assert ReviewableFinding(f, image);
  }

  lemma {:induction false} SeverityValues(inventory: seq<Finding>, image: string, k: string)
    requires Reviewable(inventory, image) && k in Map(SeverityOf, inventory)
    ensures k in SEVERITIES
  {
    MapMembers(SeverityOf, inventory);
    var f :| f in inventory && SeverityOf(f) == k;
    assert ReviewableFinding(f, image);
  }

  lemma {:induction false} SeverityText(k: string)
    requires k in SEVERITIES
    ensures |k| <= 256 && Printable(k)
  {
  }

  lemma {:induction false} FewSeverities(inventory: seq<Finding>, image: string)
    requires Reviewable(inventory, image)
    ensures |Values(Map(SeverityOf, inventory))| <= |SEVERITIES|
  {
    var s := Values(Map(SeverityOf, inventory));
    forall k | k in s ensures k in SEVERITIES {
      SeverityValues(inventory, image, k);
    }
    NoMoreThan(s, SEVERITIES);
  }

  lemma {:induction false} ThreeSeverities()
    ensures |SEVERITIES| <= 256
  {
  }

  lemma {:induction false} NoMoreThan(a: set<string>, b: set<string>)
    requires a <= b
    ensures |a| <= |b|
  {
    if a != {} {
      var x :| x in a;
      NoMoreThan(a - {x}, b - {x});
    }
  }

  lemma {:induction false} NoneForbidden(counts: seq<(string, int)>, values: seq<string>)
    requires Tells(counts, values) && forall k :: k in values ==> !IsForbiddenCategory(k)
    ensures NoForbidden(counts)
  {
    forall i | 0 <= i < |counts| ensures !IsForbiddenCategory(counts[i].0) {
      TalliedValue(counts, values, i);
    }
  }

  lemma {:induction false} PlainText(s: string)
    requires 0 < |s| <= 64 && forall i :: 0 <= i < |s| ==> s[i] in "abcdefghijklmnopqrstuvwxyz_"
    ensures PolicyText(s, false, 64, true)
  {
    forall c | c in s ensures Plain(c) && NoGlob(c) {
      var i :| 0 <= i < |s| && s[i] == c;
    }
  }

  lemma {:induction false} ImageText(image: string)
    requires image in IMAGES
    ensures PolicyText(image, false, 64, true)
  {
    PlainText(image);
  }

  lemma {:induction false} CategoriesOk(entries: seq<(string, Json)>, inventory: seq<Finding>, image: string)
    requires Reviewable(inventory, image) && exists counts :: Listed(entries, counts, Map(CategoryOf, inventory))
    ensures CountsOk(entries, None) && Total(Map(EntryCount, entries)) == |inventory| && NoForbidden(Map(EntryCount, entries))
  {
    var values := Map(CategoryOf, inventory);
    var counts :| Listed(entries, counts, values);
    forall k | k in values ensures |k| <= 256 && Printable(k) && !IsForbiddenCategory(k) {
      CategoryValues(inventory, image, k);
    }
    TallyIsOk(counts, values, None);
    EntriesBack(counts);
    NoneForbidden(counts, values);
  }

  lemma {:induction false} SeveritiesOk(entries: seq<(string, Json)>, inventory: seq<Finding>, image: string)
    requires Reviewable(inventory, image) && exists counts :: Listed(entries, counts, Map(SeverityOf, inventory))
    ensures CountsOk(entries, Some(SEVERITIES)) && Total(Map(EntryCount, entries)) == |inventory|
  {
    var values := Map(SeverityOf, inventory);
    var counts :| Listed(entries, counts, values);
    forall k | k in values ensures |k| <= 256 && Printable(k) && k in SEVERITIES {
      SeverityValues(inventory, image, k);
      SeverityText(k);
    }
    FewSeverities(inventory, image);
    ThreeSeverities();
    TallyIsOk(counts, values, Some(SEVERITIES));
    EntriesBack(counts);
  }

  /** The record passes the loader. */
  lemma {:induction false} WrittenIsOk(raw: RawBaseline, s: Signature, inventory: seq<Finding>, image: string, digest: Digest, today: int)
    requires Reviewable(inventory, image) && Signed(s, today) && WritesDown(raw, s, inventory, image, digest)
    requires DigestOk(raw.digest)
    ensures BaselineOk(raw, today)
  {
    CategoriesOk(raw.categoryCounts, inventory, image);
    SeveritiesOk(raw.severityCounts, inventory, image);
    ImageText(image);
    SignatureOk(s, today);
  }

  lemma {:induction false} SignatureOk(s: Signature, today: int)
    requires Signed(s, today)
    ensures IdOk(s.id) && StatementOk(s.statement) && ExpiryOk(Some(s.expiresOn), today)
  {
  }

  /** And the loaded baseline accepts the inventory. */
  lemma {:induction false} LoadedAccepts(raw: RawBaseline, s: Signature, inventory: seq<Finding>, image: string, digest: Digest)
    requires Reviewable(inventory, image) && WritesDown(raw, s, inventory, image, digest)
    ensures Check(LoadedBaseline(raw), inventory, digest).None?
  {
    var categories :| Listed(raw.categoryCounts, categories, Map(CategoryOf, inventory));
    var severities :| Listed(raw.severityCounts, severities, Map(SeverityOf, inventory));
    EntriesBack(categories);
    EntriesBack(severities);
    SortedTally(categories, Map(CategoryOf, inventory));
    SortedTally(severities, Map(SeverityOf, inventory));
    CheckIff(LoadedBaseline(raw), inventory, digest);
  }

  /** The policy document of one review. */
  function ReviewDocument(policyId: string, raw: RawBaseline): Document
  {
    Document(POLICY_FIELDS + {"license_baselines"}, Number(2), Text(policyId), [], [raw])
  }

  lemma {:induction false} ReviewPolicy(policyId: string, raw: RawBaseline, today: int)
    requires BaselineOk(raw, today)
    ensures WellFormed(Policy(2, policyId, [], [LoadedBaseline(raw)]))
  {
    LoadedBaselineBounded(raw, today);
  }

  lemma {:induction false} InventoryPasses(b: Baseline, policyId: string, inventory: seq<Finding>, image: string, digest: Digest)
    requires Reviewable(inventory, image) && b.image == image && Check(b, inventory, digest).None?
    requires WellFormed(Policy(2, policyId, [], [b]))
    ensures Audit(inventory, Policy(2, policyId, [], [b]), digest).Ok?
  {
    var p := Policy(2, policyId, [], [b]);
    AllPass(InImage(image), inventory);
    assert OfImage(inventory, b.image) == inventory;
    assert b in p.baselines && ReviewedImages(p.baselines) == {image};
    assert Matches([]) == [];
    assert Splits(inventory, p, inventory);
    assert Covered(p.baselines, inventory, digest);
    AcceptedIff(inventory, p, digest);
  }

  /**
    From review to audit: for every reviewable inventory, the policy that gives its own numbers, signed for at most 90
    days, is loaded, and under the loaded policy the audit of that inventory passes.
   */
  lemma {:induction false} ReviewedInventoryPasses(
      policyId: string, raw: RawBaseline, s: Signature, inventory: seq<Finding>, image: string, digest: Digest, today: int)
    requires 0 < |policyId| <= 128 && Printable(policyId)
    requires Reviewable(inventory, image) && Signed(s, today) && WritesDown(raw, s, inventory, image, digest) && DigestOk(raw.digest)
    ensures Loadable(ReviewDocument(policyId, raw), Some(2), today)
    ensures DispositionsLoaded([], 2, today, []) && BaselinesLoaded([raw], [LoadedBaseline(raw)])
    ensures Audit(inventory, Policy(2, policyId, [], [LoadedBaseline(raw)]), digest).Ok?
  {
    WrittenIsOk(raw, s, inventory, image, digest, today);
    LoadedAccepts(raw, s, inventory, image, digest);
    ReviewPolicy(policyId, raw, today);
    ReviewLoads(policyId, raw, today);
    InventoryPasses(LoadedBaseline(raw), policyId, inventory, image, digest);
  }

  lemma {:induction false} ReviewLoads(policyId: string, raw: RawBaseline, today: int)
    requires 0 < |policyId| <= 128 && Printable(policyId) && BaselineOk(raw, today)
    ensures Loadable(ReviewDocument(policyId, raw), Some(2), today)
    ensures DispositionsLoaded([], 2, today, []) && BaselinesLoaded([raw], [LoadedBaseline(raw)])
  {
    assert Ids([]) == {};
  }
}
