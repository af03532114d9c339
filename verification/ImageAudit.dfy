/**
 * Matching image findings against a disposition policy (scripts/infra_image_audit.py): single-use exact
 * dispositions first, then one reviewed license inventory per image.
 *
 * SHA-256 over the canonical JSON text is an arbitrary function `digest` of the sorted match keys, injective
 * only where a statement says so. Lists that the source sorts before showing them are sets here.
 */
module ImageAudit {
  import opened Common
  import opened Ordering
  import opened Permutations
  import opened AuditPolicy

  datatype Decision = Decision(finding: Finding, id: Option<string>)

  datatype AuditError =
    | UnsupportedSchema
    | OtherSchema
    | Unexercised(ids: set<string>)
    | NoBaseline(images: set<string>)
    | BaselineUnexercised(image: string)
    | BaselineMismatch(image: string)
    | TooManyLicenses
    | EmptyInventory
    | SeveralImages
    | Undispositioned(count: nat, safeIds: set<string>)

  type Digest = seq<seq<string>> -> string

  // ----- License inventories

  predicate IsLicense(f: Finding) { f.core.kind == "license" }
  predicate IsV2(f: Finding) { f.V2? }
  function CategoryOf(f: Finding): string { f.core.category }
  function SeverityOf(f: Finding): string { f.core.severity }
  function ImageOf(f: Finding): string { f.core.image }

  function CountOf(items: seq<string>): map<string, int>
  {
    map k | k in items :: multiset(items)[k]
  }

  function CanonicalLicenseMultiset(findings: seq<Finding>): Result<seq<seq<string>>, AuditError>
  {
    if exists f :: f in findings && !IsV2(f) then Err(OtherSchema)
    else if |Filter(IsLicense, findings)| > MAXIMUM_BASELINE_LICENSES then Err(TooManyLicenses)
    else Ok(Sort(TupleLess, Map(MatchKey, Filter(IsLicense, findings))))
  }

  datatype Summary = Summary(count: int, digest: string, categories: map<string, int>, severities: map<string, int>)

  function Values(items: seq<string>): set<string>
  {
    set x | x in items
  }

  function LicenseBaselineSummary(findings: seq<Finding>, digest: Digest): Result<Summary, AuditError>
  {
    var keys := CanonicalLicenseMultiset(findings);
    var licenses := Filter(IsLicense, findings);
    if keys.Err? then Err(keys.error)
    else if licenses == [] then Err(EmptyInventory)
    else if |Values(Map(ImageOf, licenses))| != 1 then Err(SeveralImages)
    else Ok(Summary(|keys.value|, digest(keys.value), CountOf(Map(CategoryOf, licenses)), CountOf(Map(SeverityOf, licenses))))
  }

  lemma {:induction false} CountPermutes(a: seq<string>, b: seq<string>)
    requires multiset(a) == multiset(b)
    ensures CountOf(a) == CountOf(b) && Values(a) == Values(b)
  {
    PermutationMembers(a, b);
  }

  lemma {:induction false} CanonicalPermutes(a: seq<Finding>, b: seq<Finding>)
    requires multiset(a) == multiset(b)
    ensures CanonicalLicenseMultiset(a) == CanonicalLicenseMultiset(b)
  {
    PermutationMembers(a, b);
    FilterPermutes(IsLicense, a, b);
    var la, lb := Filter(IsLicense, a), Filter(IsLicense, b);
    PermutationMembers(la, lb);
    MapPermutes(MatchKey, la, lb);
    TupleLessIsStrictTotal();
    SortCanonical(TupleLess, Map(MatchKey, la), Map(MatchKey, lb));
  }

  lemma {:induction false} ColumnPermutes(column: Finding -> string, a: seq<Finding>, b: seq<Finding>)
    requires multiset(a) == multiset(b)
    ensures CountOf(Map(column, a)) == CountOf(Map(column, b)) && Values(Map(column, a)) == Values(Map(column, b))
  {
    MapPermutes(column, a, b);
    CountPermutes(Map(column, a), Map(column, b));
  }

  /** The summary of an inventory, errors included, does not depend on its order. */
  lemma {:induction false} SummaryPermutes(a: seq<Finding>, b: seq<Finding>, digest: Digest)
    requires multiset(a) == multiset(b)
    ensures LicenseBaselineSummary(a, digest) == LicenseBaselineSummary(b, digest)
  {
    CanonicalPermutes(a, b);
    FilterPermutes(IsLicense, a, b);
    var la, lb := Filter(IsLicense, a), Filter(IsLicense, b);
    SameSize(la, lb);
    ColumnPermutes(ImageOf, la, lb);
    ColumnPermutes(CategoryOf, la, lb);
    ColumnPermutes(SeverityOf, la, lb);
  }

  ghost predicate Injective(digest: Digest)
  {
    forall x, y :: digest(x) == digest(y) ==> x == y
  }

  /** The finding with a given match key. */
  function FromKey(k: seq<string>): Finding
  {
    if |k| == 14 then
      V2(Core(k[0], k[1], k[2], k[3], k[4], k[5], k[6], k[7], k[8]), k[9], k[10], k[11], k[12], k[13])
    else if |k| == 9 then V1(Core(k[0], k[1], k[2], k[3], k[4], k[5], k[6], k[7], k[8]))
    else V1(Core("", "", "", "", "", "", "", "", ""))
  }

  lemma {:induction false} FromKeys(s: seq<Finding>)
    ensures Map(FromKey, Map(MatchKey, s)) == s
  {
    forall i | 0 <= i < |s| ensures Map(FromKey, Map(MatchKey, s))[i] == s[i] {
      MapAt(MatchKey, s, i);
      MapAt(FromKey, Map(MatchKey, s), i);
      assert FromKey(MatchKey(s[i])) == s[i];
    }
  }

  /** Two inventories with one summary hold the same licenses, each as often. */
  lemma {:induction false} SummaryDetermines(a: seq<Finding>, b: seq<Finding>, digest: Digest)
    requires Injective(digest) && LicenseBaselineSummary(a, digest).Ok?
    requires LicenseBaselineSummary(a, digest) == LicenseBaselineSummary(b, digest)
    ensures multiset(Filter(IsLicense, a)) == multiset(Filter(IsLicense, b))
  {
    var la, lb := Filter(IsLicense, a), Filter(IsLicense, b);
    var ka, kb := Map(MatchKey, la), Map(MatchKey, lb);
    assert Sort(TupleLess, ka) == Sort(TupleLess, kb);
    TupleLessIsStrictTotal();
    SortCanonical(TupleLess, ka, kb);
    MapPermutes(FromKey, ka, kb);
    FromKeys(la);
    FromKeys(lb);
  }

  // ----- Exact dispositions

  function ByMatch(ds: seq<Disposition>): map<seq<string>, Disposition>
  {
    if ds == [] then map[]
    else ByMatch(ds[..|ds| - 1])[MatchKey(ds[|ds| - 1].exact) := ds[|ds| - 1]]
  }

  /** Ids that some decision carries. */
  function Used(decisions: seq<Decision>): set<string>
  {
    set d | d in decisions && d.id.Some? :: d.id.value
  }

  function Decide(table: map<seq<string>, Disposition>, used: set<string>, f: Finding): Decision
  {
    var k := MatchKey(f);
    if k !in table || table[k].id in used then Decision(f, None) else Decision(f, Some(table[k].id))
  }

  /** The first loop: every finding in order, each disposition spent once. */
  function Assign(table: map<seq<string>, Disposition>, fs: seq<Finding>): seq<Decision>
  {
    if fs == [] then []
    else
      var before := Assign(table, fs[..|fs| - 1]);
      before + [Decide(table, Used(before), fs[|fs| - 1])]
  }

  lemma {:induction false} ByMatchMeaning(ds: seq<Disposition>, f: Finding)
    requires DistinctDispositions(ds)
    ensures MatchKey(f) in ByMatch(ds) <==> exists d :: d in ds && d.exact == f
    ensures MatchKey(f) in ByMatch(ds) ==> ByMatch(ds)[MatchKey(f)] in ds && ByMatch(ds)[MatchKey(f)].exact == f
  {
    if ds != [] {
      var front, last := ds[..|ds| - 1], ds[|ds| - 1];
      assert ds == front + [last];
      ByMatchMeaning(front, f);
      MatchKeyInjective(f, last.exact);
    }
  }

  /** The id of the disposition for exactly `f`. */
  ghost function IdFor(ds: seq<Disposition>, f: Finding): Option<string>
    requires DistinctDispositions(ds)
  {
    ByMatchMeaning(ds, f);
    if MatchKey(f) in ByMatch(ds) then Some(ByMatch(ds)[MatchKey(f)].id) else None
  }

  lemma {:induction false} IdForMeaning(ds: seq<Disposition>, f: Finding, d: Disposition)
    requires DistinctDispositions(ds) && d in ds
    ensures IdFor(ds, f) == Some(d.id) <==> d.exact == f
  {
    ByMatchMeaning(ds, f);
    ByMatchMeaning(ds, d.exact);
  }

  lemma {:induction false} AssignShape(table: map<seq<string>, Disposition>, fs: seq<Finding>)
    ensures |Assign(table, fs)| == |fs|
    ensures forall i :: 0 <= i < |fs| ==> Assign(table, fs)[i].finding == fs[i]
  {
    if fs != [] {
      AssignShape(table, fs[..|fs| - 1]);
    }
  }

  lemma {:induction false} UsedSnoc(before: seq<Decision>, x: Decision)
    ensures Used(before + [x]) == Used(before) + if x.id.Some? then {x.id.value} else {}
  {
    assert x in before + [x];
    assert forall d :: d in before ==> d in before + [x];
  }

  /** A disposition is spent exactly when its finding occurs. */
  lemma {:induction false} UsedMeaning(ds: seq<Disposition>, fs: seq<Finding>, d: Disposition)
    requires DistinctDispositions(ds) && d in ds
    ensures d.id in Used(Assign(ByMatch(ds), fs)) <==> d.exact in fs
  {
    if fs != [] {
      var front, f := fs[..|fs| - 1], fs[|fs| - 1];
      assert fs == front + [f];
      UsedMeaning(ds, front, d);
      UsedSnoc(Assign(ByMatch(ds), front), Decide(ByMatch(ds), Used(Assign(ByMatch(ds), front)), f));
      IdForMeaning(ds, f, d);
      ByMatchMeaning(ds, f);
    }
  }

  /** How often each decision is taken on the findings `m`: one copy goes to the disposition, the rest to nobody. */
  ghost function Spent(ds: seq<Disposition>, m: multiset<Finding>, x: Decision): nat
    requires DistinctDispositions(ds)
  {
    var special := x.finding in m && IdFor(ds, x.finding).Some?;
    if x.id.None? then m[x.finding] - (if special then 1 else 0)
    else if special && IdFor(ds, x.finding) == x.id then 1 else 0
  }

  lemma {:induction false} DecideMeaning(ds: seq<Disposition>, front: seq<Finding>, f: Finding)
    requires DistinctDispositions(ds)
    ensures Decide(ByMatch(ds), Used(Assign(ByMatch(ds), front)), f)
         == Decision(f, if f in front then None else IdFor(ds, f))
  {
    ByMatchMeaning(ds, f);
    if MatchKey(f) in ByMatch(ds) {
      UsedMeaning(ds, front, ByMatch(ds)[MatchKey(f)]);
    }
  }

  lemma {:induction false} SpentStep(ds: seq<Disposition>, m: multiset<Finding>, f: Finding, x: Decision)
    requires DistinctDispositions(ds)
    ensures Spent(ds, m + multiset{f}, x)
         == Spent(ds, m, x) + if x == Decision(f, if f in m then None else IdFor(ds, f)) then 1 else 0
  {
  }

  lemma {:induction false} AssignCounts(ds: seq<Disposition>, fs: seq<Finding>, x: Decision)
    requires DistinctDispositions(ds)
    ensures multiset(Assign(ByMatch(ds), fs))[x] == Spent(ds, multiset(fs), x)
  {
    if fs != [] {
      var front, f := fs[..|fs| - 1], fs[|fs| - 1];
      assert fs == front + [f];
      AssignCounts(ds, front, x);
      DecideMeaning(ds, front, f);
      assert f in front <==> f in multiset(front);
      SpentStep(ds, multiset(front), f, x);
      assert multiset(fs) == multiset(front) + multiset{f};
    }
  }

  lemma {:induction false} AssignPermutes(ds: seq<Disposition>, a: seq<Finding>, b: seq<Finding>)
    requires DistinctDispositions(ds) && multiset(a) == multiset(b)
    ensures multiset(Assign(ByMatch(ds), a)) == multiset(Assign(ByMatch(ds), b))
    ensures Used(Assign(ByMatch(ds), a)) == Used(Assign(ByMatch(ds), b))
  {
    forall x ensures multiset(Assign(ByMatch(ds), a))[x] == multiset(Assign(ByMatch(ds), b))[x] {
      AssignCounts(ds, a, x);
      AssignCounts(ds, b, x);
    }
    SameCounts(multiset(Assign(ByMatch(ds), a)), multiset(Assign(ByMatch(ds), b)));
    PermutationMembers(Assign(ByMatch(ds), a), Assign(ByMatch(ds), b));
  }

  // ----- Reviewed license inventories

  /** A finding that only a license baseline can still dispose of. */
  predicate IsLeft(x: Decision)
  {
    x.id.None? && IsV2(x.finding) && IsLicense(x.finding) && !IsForbiddenLicense(x.finding)
  }

  function FindingOf(x: Decision): Finding { x.finding }

  function LeftOver(decisions: seq<Decision>): seq<Finding>
  {
    Map(FindingOf, Filter(IsLeft, decisions))
  }

  function InImage(image: string): Finding -> bool
  {
    (f: Finding) => f.core.image == image
  }

  function OfImage(fs: seq<Finding>, image: string): seq<Finding>
  {
    Filter(InImage(image), fs)
  }

  function Dict(pairs: seq<(string, int)>): map<string, int>
  {
    if pairs == [] then map[]
    else Dict(pairs[..|pairs| - 1])[pairs[|pairs| - 1].0 := pairs[|pairs| - 1].1]
  }

  function Expected(b: Baseline): Summary
  {
    Summary(b.findingCount, b.digest, Dict(b.categoryCounts), Dict(b.severityCounts))
  }

  function Check(b: Baseline, actual: seq<Finding>, digest: Digest): Option<AuditError>
  {
    if actual == [] then Some(BaselineUnexercised(b.image))
    else match LicenseBaselineSummary(actual, digest)
      case Err(e) => Some(e)
      case Ok(summary) => if summary == Expected(b) then None else Some(BaselineMismatch(b.image))
  }

  function FirstFailure(bs: seq<Baseline>, left: seq<Finding>, digest: Digest): Option<AuditError>
  {
    if bs == [] then None
    else
      var e := Check(bs[0], OfImage(left, bs[0].image), digest);
      if e.Some? then e else FirstFailure(bs[1..], left, digest)
  }

  function BaselineId(bs: seq<Baseline>, image: string): Option<string>
  {
    if bs == [] then None
    else if bs[|bs| - 1].image == image then Some(bs[|bs| - 1].id)
    else BaselineId(bs[..|bs| - 1], image)
  }

  function Settle(bs: seq<Baseline>): Decision -> Decision
  {
    (x: Decision) =>
      if IsLeft(x) && BaselineId(bs, x.finding.core.image).Some?
      then Decision(x.finding, BaselineId(bs, x.finding.core.image)) else x
  }

  function Unspent(ds: seq<Disposition>, used: set<string>): set<string>
  {
    set d | d in ds && d.id !in used :: d.id
  }

  function ReviewedImages(bs: seq<Baseline>): set<string>
  {
    set b | b in bs :: b.image
  }

  function Unreviewed(bs: seq<Baseline>, left: seq<Finding>): set<string>
  {
    Values(Map(ImageOf, left)) - ReviewedImages(bs)
  }

  predicate AllOfSchema(fs: seq<Finding>, schema: int)
  {
    forall f :: f in fs ==> OfSchema(f, schema)
  }

  /** The second stage: the findings left over must be the reviewed inventories. */
  function Review(first: seq<Decision>, bs: seq<Baseline>, digest: Digest): Result<seq<Decision>, AuditError>
  {
    var left := LeftOver(first);
    if Unreviewed(bs, left) != {} then Err(NoBaseline(Unreviewed(bs, left)))
    else
      var e := FirstFailure(bs, left, digest);
      if e.Some? then Err(e.value) else Ok(Map(Settle(bs), first))
  }

  /** What the whole evaluation yields. */
  function Outcome(fs: seq<Finding>, policy: Policy, digest: Digest): Result<seq<Decision>, AuditError>
  {
    if policy.schema != 1 && policy.schema != 2 then Err(UnsupportedSchema)
    else if !AllOfSchema(fs, policy.schema) then Err(OtherSchema)
    else
      var first := Assign(ByMatch(policy.dispositions), fs);
      var unspent := Unspent(policy.dispositions, Used(first));
      if unspent != {} then Err(Unexercised(unspent))
      else if policy.schema == 1 then Ok(first)
      else Review(first, policy.baselines, digest)
  }

  predicate IsOpen(x: Decision) { x.id.None? }

  function SafeId(f: Finding): string
  {
    f.core.image + ":" + f.core.kind + ":" + f.core.findingId
  }

  function SafeIds(open: seq<Decision>): set<string>
  {
    set x | x in open :: SafeId(x.finding)
  }

  function Enforce(decisions: seq<Decision>): Result<(), AuditError>
  {
    var open := Filter(IsOpen, decisions);
    if open == [] then Ok(()) else Err(Undispositioned(|open|, SafeIds(open)))
  }

  /** Evaluation followed by enforcement. */
  function Audit(fs: seq<Finding>, policy: Policy, digest: Digest): Result<seq<Decision>, AuditError>
  {
    match Outcome(fs, policy, digest)
    case Err(e) => Err(e)
    case Ok(decisions) => if Enforce(decisions).Err? then Err(Enforce(decisions).error) else Ok(decisions)
  }

  datatype Report = Report(total: nat, disposed: nat, undispositioned: int, byKind: map<string, int>, ids: set<string>)

  predicate IsDisposed(x: Decision) { x.id.Some? }
  function DecisionKind(x: Decision): string { x.finding.core.kind }

  function FindingSummary(decisions: seq<Decision>): Report
  {
    var disposed := |Filter(IsDisposed, decisions)|;
    Report(|decisions|, disposed, |decisions| - disposed, CountOf(Map(DecisionKind, decisions)), Used(decisions))
  }

  // ----- Order does not matter

  lemma {:induction false} LeftOverPermutes(a: seq<Decision>, b: seq<Decision>)
    requires multiset(a) == multiset(b)
    ensures multiset(LeftOver(a)) == multiset(LeftOver(b))
  {
    FilterPermutes(IsLeft, a, b);
    MapPermutes(FindingOf, Filter(IsLeft, a), Filter(IsLeft, b));
  }

  lemma {:induction false} CheckPermutes(bl: Baseline, a: seq<Finding>, b: seq<Finding>, digest: Digest)
    requires multiset(a) == multiset(b)
    ensures Check(bl, a, digest) == Check(bl, b, digest)
  {
    SameSize(a, b);
    SummaryPermutes(a, b, digest);
  }

  lemma {:induction false} FirstFailurePermutes(bs: seq<Baseline>, a: seq<Finding>, b: seq<Finding>, digest: Digest)
    requires multiset(a) == multiset(b)
    ensures FirstFailure(bs, a, digest) == FirstFailure(bs, b, digest)
  {
    if bs != [] {
      FilterPermutes(InImage(bs[0].image), a, b);
      CheckPermutes(bs[0], OfImage(a, bs[0].image), OfImage(b, bs[0].image), digest);
      FirstFailurePermutes(bs[1..], a, b, digest);
    }
  }

  /** Equal up to the order of the decisions. */
  ghost predicate SameOutcome(a: Result<seq<Decision>, AuditError>, b: Result<seq<Decision>, AuditError>)
  {
    match (a, b)
    case (Ok(x), Ok(y)) => multiset(x) == multiset(y)
    case (Err(x), Err(y)) => x == y
    case _ => false
  }

  lemma {:induction false} ReviewPermutes(x: seq<Decision>, y: seq<Decision>, bs: seq<Baseline>, digest: Digest)
    requires multiset(x) == multiset(y)
    ensures SameOutcome(Review(x, bs, digest), Review(y, bs, digest))
  {
    LeftOverPermutes(x, y);
    ColumnPermutes(ImageOf, LeftOver(x), LeftOver(y));
    FirstFailurePermutes(bs, LeftOver(x), LeftOver(y), digest);
    MapPermutes(Settle(bs), x, y);
  }

  /** Any permutation of the findings gets the same error, or the same decisions on the same findings. */
  lemma {:induction false} OutcomePermutes(a: seq<Finding>, b: seq<Finding>, policy: Policy, digest: Digest)
    requires DistinctDispositions(policy.dispositions) && multiset(a) == multiset(b)
    ensures SameOutcome(Outcome(a, policy, digest), Outcome(b, policy, digest))
  {
    PermutationMembers(a, b);
    assert AllOfSchema(a, policy.schema) == AllOfSchema(b, policy.schema);
    AssignPermutes(policy.dispositions, a, b);
    ReviewPermutes(Assign(ByMatch(policy.dispositions), a), Assign(ByMatch(policy.dispositions), b), policy.baselines, digest);
  }

  lemma {:induction false} EnforcePermutes(x: seq<Decision>, y: seq<Decision>)
    requires multiset(x) == multiset(y)
    ensures Enforce(x) == Enforce(y)
  {
    FilterPermutes(IsOpen, x, y);
    var a, b := Filter(IsOpen, x), Filter(IsOpen, y);
    PermutationMembers(a, b);
    assert SafeIds(a) == SafeIds(b);
  }

  lemma {:induction false} ReportPermutes(x: seq<Decision>, y: seq<Decision>)
    requires multiset(x) == multiset(y)
    ensures FindingSummary(x) == FindingSummary(y)
  {
    PermutationMembers(x, y);
    FilterPermutes(IsDisposed, x, y);
    SameSize(Filter(IsDisposed, x), Filter(IsDisposed, y));
    MapPermutes(DecisionKind, x, y);
    CountPermutes(Map(DecisionKind, x), Map(DecisionKind, y));
  }

  /** The verdict, its error and the published summary do not depend on the order of the findings. */
  lemma {:induction false} AuditPermutes(a: seq<Finding>, b: seq<Finding>, policy: Policy, digest: Digest)
    requires DistinctDispositions(policy.dispositions) && multiset(a) == multiset(b)
    ensures SameOutcome(Audit(a, policy, digest), Audit(b, policy, digest))
    ensures Audit(a, policy, digest).Ok? ==>
              FindingSummary(Audit(a, policy, digest).value) == FindingSummary(Audit(b, policy, digest).value)
  {
    OutcomePermutes(a, b, policy, digest);
    if Outcome(a, policy, digest).Ok? {
      EnforcePermutes(Outcome(a, policy, digest).value, Outcome(b, policy, digest).value);
      ReportPermutes(Outcome(a, policy, digest).value, Outcome(b, policy, digest).value);
    }
  }

  // ----- What acceptance means

  function ExactOf(d: Disposition): Finding { d.exact }

  function Matches(ds: seq<Disposition>): seq<Finding>
  {
    Map(ExactOf, ds)
  }

  function OpenFindings(decisions: seq<Decision>): seq<Finding>
  {
    Map(FindingOf, Filter(IsOpen, decisions))
  }

  lemma {:induction false} OpenCount(x: seq<Decision>, f: Finding)
    ensures multiset(OpenFindings(x))[f] == multiset(x)[Decision(f, None)]
  {
    if x != [] {
      OpenCount(x[1..], f);
      assert x == [x[0]] + x[1..];
      assert x[0] == Decision(f, None) <==> IsOpen(x[0]) && x[0].finding == f;
      if IsOpen(x[0]) {
        assert ([x[0]] + Filter(IsOpen, x[1..]))[1..] == Filter(IsOpen, x[1..]);
        assert OpenFindings(x) == [x[0].finding] + OpenFindings(x[1..]);
      }
    }
  }

  lemma {:induction false} MatchCount(ds: seq<Disposition>, f: Finding)
    requires DistinctDispositions(ds)
    ensures multiset(Matches(ds))[f] == if exists d :: d in ds && d.exact == f then 1 else 0
  {
    if ds != [] {
      MatchCount(ds[1..], f);
      assert ds == [ds[0]] + ds[1..];
      assert Matches(ds) == [ds[0].exact] + Matches(ds[1..]);
    }
  }

  lemma {:induction false} SplitCount(ds: seq<Disposition>, fs: seq<Finding>, f: Finding)
    requires DistinctDispositions(ds) && forall d :: d in ds ==> d.exact in fs
    ensures multiset(fs)[f] == multiset(Matches(ds))[f] + multiset(OpenFindings(Assign(ByMatch(ds), fs)))[f]
  {
    OpenCount(Assign(ByMatch(ds), fs), f);
    AssignCounts(ds, fs, Decision(f, None));
    MatchCount(ds, f);
    ByMatchMeaning(ds, f);
  }

  /** When every disposition is spent, the findings are the exact matches and what stayed open. */
  lemma {:induction false} SplitFirst(ds: seq<Disposition>, fs: seq<Finding>)
    requires DistinctDispositions(ds) && forall d :: d in ds ==> d.exact in fs
    ensures multiset(fs) == multiset(Matches(ds)) + multiset(OpenFindings(Assign(ByMatch(ds), fs)))
  {
    var sum := multiset(Matches(ds)) + multiset(OpenFindings(Assign(ByMatch(ds), fs)));
    forall f ensures multiset(fs)[f] == sum[f] {
      SplitCount(ds, fs, f);
    }
    SameCounts(multiset(fs), sum);
  }

  lemma {:induction false} UnspentEmptyIff(ds: seq<Disposition>, fs: seq<Finding>)
    requires DistinctDispositions(ds)
    ensures Unspent(ds, Used(Assign(ByMatch(ds), fs))) == {} <==> forall d :: d in ds ==> d.exact in fs
  {
    var u := Unspent(ds, Used(Assign(ByMatch(ds), fs)));
    forall d | d in ds ensures d.id in u <==> d.exact !in fs {
      UsedMeaning(ds, fs, d);
      if d.id in u {
        var e :| e in ds && e.id == d.id && e.id !in Used(Assign(ByMatch(ds), fs));
      }
    }
    assert forall id :: id in u ==> exists d :: d in ds && d.id == id;
  }

  /** `rest` is made of non-forbidden licenses and is, image by image, the reviewed inventory. */
  ghost predicate Covered(bs: seq<Baseline>, rest: seq<Finding>, digest: Digest)
  {
    && (forall f :: f in rest ==> IsV2(f) && IsLicense(f) && !IsForbiddenLicense(f) && f.core.image in ReviewedImages(bs))
    && (forall b :: b in bs ==> Check(b, OfImage(rest, b.image), digest).None?)
  }

  lemma {:induction false} FirstFailureNone(bs: seq<Baseline>, left: seq<Finding>, digest: Digest)
    ensures FirstFailure(bs, left, digest).None? <==> forall b :: b in bs ==> Check(b, OfImage(left, b.image), digest).None?
  {
    if bs != [] {
      assert bs == [bs[0]] + bs[1..];
      FirstFailureNone(bs[1..], left, digest);
    }
  }

  lemma {:induction false} BaselineIdSome(bs: seq<Baseline>, image: string)
    ensures BaselineId(bs, image).Some? <==> image in ReviewedImages(bs)
    ensures BaselineId(bs, image).Some? ==> exists b :: b in bs && b.image == image && b.id == BaselineId(bs, image).value
  {
    if bs != [] {
      var front, last := bs[..|bs| - 1], bs[|bs| - 1];
      assert bs == front + [last];
      assert last in bs;
      BaselineIdSome(front, image);
      assert forall b :: b in front ==> b in bs;
    }
  }

  /** If every open decision is left over, the open findings are the left-over ones. */
  lemma {:induction false} OpenIsLeft(x: seq<Decision>)
    requires forall d :: d in x && IsOpen(d) ==> IsLeft(d)
    ensures Filter(IsOpen, x) == Filter(IsLeft, x)
  {
    if x != [] {
      assert x == [x[0]] + x[1..];
      OpenIsLeft(x[1..]);
    }
  }

  lemma {:induction false} EnforceOkIff(x: seq<Decision>)
    ensures Enforce(x).Ok? <==> forall d :: d in x ==> !IsOpen(d)
  {
    FilterMembers(IsOpen, x);
    var open := Filter(IsOpen, x);
    if open != [] {
      assert open[0] in open;
    }
  }

  lemma {:induction false} EnforceSettled(first: seq<Decision>, bs: seq<Baseline>)
    ensures Enforce(Map(Settle(bs), first)).Ok? <==>
            forall d :: d in first && IsOpen(d) ==> IsLeft(d) && d.finding.core.image in ReviewedImages(bs)
  {
    var final := Map(Settle(bs), first);
    EnforceOkIff(final);
    MapMembers(Settle(bs), first);
    forall d | d in first ensures IsOpen(Settle(bs)(d)) <==> IsOpen(d) && !(IsLeft(d) && d.finding.core.image in ReviewedImages(bs)) {
      BaselineIdSome(bs, d.finding.core.image);
    }
  }

  lemma {:induction false} OpenMembers(first: seq<Decision>)
    ensures forall f :: f in OpenFindings(first) <==> Decision(f, None) in first
  {
    forall f ensures f in OpenFindings(first) <==> Decision(f, None) in first {
      OpenCount(first, f);
      assert f in OpenFindings(first) <==> f in multiset(OpenFindings(first));
      assert Decision(f, None) in first <==> Decision(f, None) in multiset(first);
    }
  }

  lemma {:induction false} AllLeftPassesIff(first: seq<Decision>, bs: seq<Baseline>, digest: Digest)
    requires forall d :: d in first && IsOpen(d) ==> IsLeft(d)
    ensures Review(first, bs, digest).Ok? <==> Covered(bs, OpenFindings(first), digest)
    ensures Covered(bs, OpenFindings(first), digest) ==>
              forall d :: d in first && IsOpen(d) ==> d.finding.core.image in ReviewedImages(bs)
  {
    OpenMembers(first);
    OpenIsLeft(first);
    var left := LeftOver(first);
    assert left == OpenFindings(first);
    forall f | f in left ensures IsV2(f) && IsLicense(f) && !IsForbiddenLicense(f) {
      assert IsLeft(Decision(f, None));
    }
    FirstFailureNone(bs, left, digest);
    UnreviewedEmpty(bs, left);
    forall d | d in first && IsOpen(d) ensures d.finding in left {
      assert d == Decision(d.finding, None);
    }
  }

  lemma {:induction false} UncoverableFails(first: seq<Decision>, bs: seq<Baseline>, digest: Digest, d: Decision)
    requires d in first && IsOpen(d) && !IsLeft(d)
    ensures !Covered(bs, OpenFindings(first), digest)
  {
    OpenMembers(first);
    assert d == Decision(d.finding, None);
    assert d.finding in OpenFindings(first);
  }

  /** The second stage and enforcement pass together exactly when the open findings are covered. */
  lemma {:induction false} ReviewPassesIff(first: seq<Decision>, bs: seq<Baseline>, digest: Digest)
    ensures Review(first, bs, digest).Ok? && Enforce(Map(Settle(bs), first)).Ok? <==> Covered(bs, OpenFindings(first), digest)
  {
    EnforceSettled(first, bs);
    if d :| d in first && IsOpen(d) && !IsLeft(d) {
      UncoverableFails(first, bs, digest, d);
    } else {
      AllLeftPassesIff(first, bs, digest);
    }
  }

  lemma {:induction false} UnreviewedEmpty(bs: seq<Baseline>, left: seq<Finding>)
    ensures Unreviewed(bs, left) == {} <==> forall f :: f in left ==> f.core.image in ReviewedImages(bs)
  {
    MapMembers(ImageOf, left);
    var images := Values(Map(ImageOf, left));
    assert forall f :: f in left ==> ImageOf(f) in images;
    assert forall i :: i in images ==> exists f :: f in left && ImageOf(f) == i;
    var u := Unreviewed(bs, left);
    assert forall i :: i in u <==> i in images && i !in ReviewedImages(bs);
    if f :| f in left && f.core.image !in ReviewedImages(bs) {
      assert ImageOf(f) in u;
    }
  }

  /** With well-formed policies the two schemas pass under one condition. */
  lemma {:induction false} AuditPassesIff(fs: seq<Finding>, policy: Policy, digest: Digest)
    requires WellFormed(policy)
    ensures Audit(fs, policy, digest).Ok? <==>
            && AllOfSchema(fs, policy.schema)
            && (forall d :: d in policy.dispositions ==> d.exact in fs)
            && Covered(policy.baselines, OpenFindings(Assign(ByMatch(policy.dispositions), fs)), digest)
  {
    UnspentEmptyIff(policy.dispositions, fs);
    var first := Assign(ByMatch(policy.dispositions), fs);
    if policy.schema == 1 {
      SchemaOnePasses(first, digest);
    } else {
      ReviewPassesIff(first, policy.baselines, digest);
    }
  }

  lemma {:induction false} SchemaOnePasses(first: seq<Decision>, digest: Digest)
    ensures Enforce(first).Ok? <==> Covered([], OpenFindings(first), digest)
  {
    EnforceOkIff(first);
    OpenMembers(first);
    if d :| d in first && IsOpen(d) {
      assert d == Decision(d.finding, None);
      assert d.finding in OpenFindings(first);
    }
  }

  lemma {:induction false} CoveredPermutes(bs: seq<Baseline>, a: seq<Finding>, b: seq<Finding>, digest: Digest)
    requires multiset(a) == multiset(b) && Covered(bs, a, digest)
    ensures Covered(bs, b, digest)
  {
    PermutationMembers(a, b);
    forall x | x in bs ensures Check(x, OfImage(b, x.image), digest).None? {
      FilterPermutes(InImage(x.image), a, b);
      CheckPermutes(x, OfImage(a, x.image), OfImage(b, x.image), digest);
    }
  }

  /** The findings are the policy's exact matches, each once, and `rest`. */
  ghost predicate Splits(fs: seq<Finding>, policy: Policy, rest: seq<Finding>)
  {
    multiset(fs) == multiset(Matches(policy.dispositions)) + multiset(rest)
  }

  lemma {:induction false} MatchMembers(ds: seq<Disposition>)
    ensures forall f :: f in Matches(ds) <==> exists d :: d in ds && d.exact == f
  {
    MapMembers(ExactOf, ds);
    forall f ensures f in Matches(ds) <==> exists d :: d in ds && d.exact == f {
      if d :| d in ds && d.exact == f {
        assert ExactOf(d) in Matches(ds);
      }
      if f in Matches(ds) {
        var d :| d in ds && ExactOf(d) == f;
      }
    }
  }

  lemma {:induction false} SplitMembers(fs: seq<Finding>, policy: Policy, rest: seq<Finding>)
    requires Splits(fs, policy, rest)
    ensures forall f :: f in fs <==> f in rest || exists d :: d in policy.dispositions && d.exact == f
  {
    MatchMembers(policy.dispositions);
    forall f ensures f in fs <==> f in rest || f in Matches(policy.dispositions) {
      assert f in fs <==> f in multiset(fs);
      assert f in rest <==> f in multiset(rest);
      assert f in Matches(policy.dispositions) <==> f in multiset(Matches(policy.dispositions));
    }
  }

  lemma {:induction false} SplitOfSchema(fs: seq<Finding>, policy: Policy, rest: seq<Finding>, digest: Digest)
    requires WellFormed(policy) && Splits(fs, policy, rest) && Covered(policy.baselines, rest, digest)
    ensures AllOfSchema(fs, policy.schema) && forall d :: d in policy.dispositions ==> d.exact in fs
  {
    SplitMembers(fs, policy, rest);
    forall f | f in fs ensures OfSchema(f, policy.schema) {
      if f in rest {
        assert f.core.image in ReviewedImages(policy.baselines);
        assert policy.schema == 2;
      }
    }
  }

  lemma {:induction false} Cancel(a: multiset<Finding>, b: multiset<Finding>, c: multiset<Finding>)
    requires a + b == a + c
    ensures b == c
  {
    assert (a + b) - a == b && (a + c) - a == c;
  }

  /**
   * An audit passes exactly when the findings are, up to order, every exact match once and otherwise the
   * reviewed license inventories.
   */
  lemma {:induction false} AcceptedIff(fs: seq<Finding>, policy: Policy, digest: Digest)
    requires WellFormed(policy)
    ensures Audit(fs, policy, digest).Ok? <==>
            exists rest :: Splits(fs, policy, rest) && Covered(policy.baselines, rest, digest)
  {
    AuditPassesIff(fs, policy, digest);
    var open := OpenFindings(Assign(ByMatch(policy.dispositions), fs));
    if Audit(fs, policy, digest).Ok? {
      SplitFirst(policy.dispositions, fs);
      assert Splits(fs, policy, open);
    }
    if rest :| Splits(fs, policy, rest) && Covered(policy.baselines, rest, digest) {
      SplitOfSchema(fs, policy, rest, digest);
      SplitFirst(policy.dispositions, fs);
      Cancel(multiset(Matches(policy.dispositions)), multiset(open), multiset(rest));
      CoveredPermutes(policy.baselines, rest, open, digest);
    }
  }

  lemma {:induction false} HasMember<T>(s: seq<T>)
    requires s != []
    ensures exists f :: f in s
  {
    assert s[0] in s;
  }

  /** Without baselines, only a permutation of the exact matches passes. */
  lemma {:induction false} AcceptedExactly(fs: seq<Finding>, policy: Policy, digest: Digest)
    requires WellFormed(policy) && policy.baselines == []
    ensures Audit(fs, policy, digest).Ok? <==> multiset(fs) == multiset(Matches(policy.dispositions))
  {
    AcceptedIff(fs, policy, digest);
    if Audit(fs, policy, digest).Ok? {
      var rest :| Splits(fs, policy, rest) && Covered(policy.baselines, rest, digest);
      if rest != [] {
        HasMember(rest);
      }
    } else {
      assert Covered(policy.baselines, [], digest);
      assert !Splits(fs, policy, []);
    }
  }

  // ----- Consequences of acceptance

  lemma {:induction false} DictKeys(pairs: seq<(string, int)>, k: string)
    requires k in Dict(pairs)
    ensures exists x :: x in pairs && x.0 == k
  {
    var front, last := pairs[..|pairs| - 1], pairs[|pairs| - 1];
    assert last in pairs;
    if k != last.0 {
      DictKeys(front, k);
      var x :| x in front && x.0 == k;
      assert x in pairs;
    }
  }

  lemma {:induction false} CheckedSeverity(b: Baseline, actual: seq<Finding>, digest: Digest, f: Finding)
    requires Check(b, actual, digest).None? && f in actual && IsLicense(f)
    ensures f.core.severity in Dict(b.severityCounts)
  {
    FilterMembers(IsLicense, actual);
    var licenses := Filter(IsLicense, actual);
    MapMembers(SeverityOf, licenses);
    assert SeverityOf(f) in Map(SeverityOf, licenses);
  }

  lemma {:induction false} CoveredSeverity(bs: seq<Baseline>, rest: seq<Finding>, digest: Digest, f: Finding)
    requires Covered(bs, rest, digest) && f in rest && forall b :: b in bs ==> BaselineBounded(b)
    ensures f.core.severity in SEVERITIES && f.core.image in IMAGES
  {
    var b :| b in bs && b.image == f.core.image;
    FilterMembers(InImage(b.image), rest);
    CheckedSeverity(b, OfImage(rest, b.image), digest, f);
    DictKeys(b.severityCounts, f.core.severity);
  }

  /** Nothing of another kind, severity or image is ever accepted; a forbidden license only by its own disposition. */
  lemma {:induction false} AcceptedFinding(fs: seq<Finding>, policy: Policy, digest: Digest, f: Finding)
    requires WellFormed(policy) && Audit(fs, policy, digest).Ok? && f in fs
    ensures f.core.kind in KINDS && f.core.kind != "modified"
    ensures f.core.severity in SEVERITIES && f.core.image in IMAGES
    ensures IsForbiddenLicense(f) ==> multiset(fs)[f] == 1 && exists d :: d in policy.dispositions && d.exact == f
  {
    AcceptedIff(fs, policy, digest);
    var rest :| Splits(fs, policy, rest) && Covered(policy.baselines, rest, digest);
    SplitMembers(fs, policy, rest);
    MatchCount(policy.dispositions, f);
    if f in rest {
      CoveredSeverity(policy.baselines, rest, digest, f);
    } else {
      assert f !in multiset(rest);
    }
  }

  lemma {:induction false} CoveredInventory(bs: seq<Baseline>, rest: seq<Finding>, digest: Digest, b: Baseline, reviewed: seq<Finding>)
    requires Covered(bs, rest, digest) && Injective(digest) && b in bs
    requires LicenseBaselineSummary(reviewed, digest) == Ok(Expected(b))
    ensures multiset(OfImage(rest, b.image)) == multiset(Filter(IsLicense, reviewed))
  {
    var actual := OfImage(rest, b.image);
    assert Check(b, actual, digest).None?;
    SummaryDetermines(actual, reviewed, digest);
    FilterMembers(InImage(b.image), rest);
    AllLicenses(actual);
  }

  /** What an accepted audit takes for a reviewed inventory is that inventory, each license as often. */
  lemma {:induction false} AcceptedInventory(fs: seq<Finding>, policy: Policy, digest: Digest, b: Baseline, reviewed: seq<Finding>)
    requires WellFormed(policy) && Audit(fs, policy, digest).Ok? && Injective(digest) && b in policy.baselines
    requires LicenseBaselineSummary(reviewed, digest) == Ok(Expected(b))
    ensures exists rest :: Splits(fs, policy, rest) && multiset(OfImage(rest, b.image)) == multiset(Filter(IsLicense, reviewed))
  {
    AcceptedIff(fs, policy, digest);
    var rest :| Splits(fs, policy, rest) && Covered(policy.baselines, rest, digest);
    CoveredInventory(policy.baselines, rest, digest, b, reviewed);
  }

  lemma {:induction false} AllLicenses(s: seq<Finding>)
    requires forall f :: f in s ==> IsLicense(f)
    ensures Filter(IsLicense, s) == s
  {
    if s != [] {
      assert s == [s[0]] + s[1..];
      AllLicenses(s[1..]);
    }
  }

  lemma {:induction false} SettleKeeps(first: seq<Decision>, bs: seq<Baseline>, x: Decision)
    requires x.id.Some? && forall b :: b in bs ==> b.id != x.id.value
    ensures multiset(Map(Settle(bs), first))[x] == multiset(first)[x]
  {
    if first != [] {
      SettleKeeps(first[1..], bs, x);
      assert first == [first[0]] + first[1..];
      BaselineIdSome(bs, first[0].finding.core.image);
    }
  }

  lemma {:induction false} AuditDecisions(fs: seq<Finding>, policy: Policy, digest: Digest)
    requires WellFormed(policy) && Audit(fs, policy, digest).Ok?
    ensures Audit(fs, policy, digest).value == Map(Settle(policy.baselines), Assign(ByMatch(policy.dispositions), fs))
    ensures forall d :: d in policy.dispositions ==> d.exact in fs
  {
    AuditPassesIff(fs, policy, digest);
    if policy.schema == 1 {
      SettleNothing(Assign(ByMatch(policy.dispositions), fs));
    }
  }

  lemma {:induction false} SettleNothing(first: seq<Decision>)
    ensures Map(Settle([]), first) == first
  {
    forall i | 0 <= i < |first| ensures Map(Settle([]), first)[i] == first[i] {
      MapAt(Settle([]), first, i);
    }
  }

  /** Every disposition covers exactly one finding, the one it names, and its id stands for nothing else. */
  lemma {:induction false} DispositionCoversOne(fs: seq<Finding>, policy: Policy, digest: Digest, d: Disposition, g: Finding)
    requires WellFormed(policy) && Audit(fs, policy, digest).Ok? && d in policy.dispositions
    ensures multiset(Audit(fs, policy, digest).value)[Decision(g, Some(d.id))] == if g == d.exact then 1 else 0
  {
    AuditDecisions(fs, policy, digest);
    var ds := policy.dispositions;
    var first := Assign(ByMatch(ds), fs);
    var x := Decision(g, Some(d.id));
    SettleKeeps(first, policy.baselines, x);
    AssignCounts(ds, fs, x);
    IdForMeaning(ds, g, d);
    assert d.exact in multiset(fs);
  }

  lemma {:induction false} AssignedIsExact(ds: seq<Disposition>, fs: seq<Finding>, x: Decision)
    requires DistinctDispositions(ds) && x in Assign(ByMatch(ds), fs) && x.id.Some?
    ensures exists d :: d in ds && d.exact == x.finding && x.id == Some(d.id)
  {
    AssignCounts(ds, fs, x);
    assert x in multiset(Assign(ByMatch(ds), fs));
    ByMatchMeaning(ds, x.finding);
  }

  /** Every other accepted finding is decided by the baseline of its image. */
  lemma {:induction false} OtherDecisionsAreBaselines(fs: seq<Finding>, policy: Policy, digest: Digest, x: Decision)
    requires WellFormed(policy) && Audit(fs, policy, digest).Ok? && x in Audit(fs, policy, digest).value
    ensures x.finding in fs && x.id.Some?
    ensures (exists d :: d in policy.dispositions && d.exact == x.finding && x.id == Some(d.id))
         || (IsV2(x.finding) && IsLicense(x.finding) && !IsForbiddenLicense(x.finding)
             && exists b :: b in policy.baselines && b.image == x.finding.core.image && x.id == Some(b.id))
  {
    AuditDecisions(fs, policy, digest);
    EnforceOkIff(Audit(fs, policy, digest).value);
    SettledDecision(policy.dispositions, policy.baselines, fs, x);
  }

  lemma {:induction false} SettledDecision(ds: seq<Disposition>, bs: seq<Baseline>, fs: seq<Finding>, x: Decision)
    requires DistinctDispositions(ds) && x in Map(Settle(bs), Assign(ByMatch(ds), fs)) && x.id.Some?
    ensures x.finding in fs
    ensures (exists d :: d in ds && d.exact == x.finding && x.id == Some(d.id))
         || (IsV2(x.finding) && IsLicense(x.finding) && !IsForbiddenLicense(x.finding)
             && exists b :: b in bs && b.image == x.finding.core.image && x.id == Some(b.id))
  {
    var first := Assign(ByMatch(ds), fs);
    MapMembers(Settle(bs), first);
    var y :| y in first && Settle(bs)(y) == x;
    AssignShape(ByMatch(ds), fs);
    if y == x {
      AssignedIsExact(ds, fs, x);
    } else {
      BaselineIdSome(bs, y.finding.core.image);
    }
  }

  // ----- Summaries per image add up

  function OnImage(image: string): Decision -> bool
  {
    (x: Decision) => x.finding.core.image == image
  }

  function ForImage(decisions: seq<Decision>, image: string): seq<Decision>
  {
    Filter(OnImage(image), decisions)
  }

  function OffImage(image: string): Decision -> bool
  {
    (x: Decision) => x.finding.core.image != image
  }

  function AddCounts(a: map<string, int>, b: map<string, int>): map<string, int>
  {
    map k | k in a.Keys + b.Keys :: (if k in a then a[k] else 0) + (if k in b then b[k] else 0)
  }

  function Combine(a: Report, b: Report): Report
  {
    Report(a.total + b.total, a.disposed + b.disposed, a.undispositioned + b.undispositioned,
           AddCounts(a.byKind, b.byKind), a.ids + b.ids)
  }

  /** The per-image summaries, added. */
  function Combined(images: seq<string>, decisions: seq<Decision>): Report
  {
    if images == [] then FindingSummary([])
    else Combine(FindingSummary(ForImage(decisions, images[0])), Combined(images[1..], decisions))
  }

  lemma {:induction false} CountConcat(a: seq<string>, b: seq<string>)
    ensures CountOf(a + b) == AddCounts(CountOf(a), CountOf(b))
  {
    var m, n := CountOf(a + b), AddCounts(CountOf(a), CountOf(b));
    assert m.Keys == n.Keys;
    forall k | k in m ensures m[k] == n[k] {
      assert k !in a ==> multiset(a)[k] == 0;
      assert k !in b ==> multiset(b)[k] == 0;
    }
  }

  lemma {:induction false} ReportConcat(a: seq<Decision>, b: seq<Decision>)
    ensures FindingSummary(a + b) == Combine(FindingSummary(a), FindingSummary(b))
  {
    FilterConcat(IsDisposed, a, b);
    MapConcat(DecisionKind, a, b);
    CountConcat(Map(DecisionKind, a), Map(DecisionKind, b));
    assert Used(a + b) == Used(a) + Used(b) by {
      assert forall x :: x in a + b <==> x in a || x in b;
    }
  }

  lemma {:induction false} SplitByImage(decisions: seq<Decision>, image: string)
    ensures multiset(decisions) == multiset(ForImage(decisions, image) + Filter(OffImage(image), decisions))
  {
    var on, off := ForImage(decisions, image), Filter(OffImage(image), decisions);
    var both := multiset(on) + multiset(off);
    assert multiset(on + off) == both;
    forall x ensures multiset(decisions)[x] == both[x] {
      FilterCount(OnImage(image), decisions, x);
      FilterCount(OffImage(image), decisions, x);
    }
    SameCounts(multiset(decisions), both);
  }

  lemma {:induction false} OtherImage(decisions: seq<Decision>, image: string, other: string)
    requires image != other
    ensures ForImage(Filter(OffImage(other), decisions), image) == ForImage(decisions, image)
  {
    if decisions != [] {
      OtherImage(decisions[1..], image, other);
      if decisions[0].finding.core.image != other {
        assert ([decisions[0]] + Filter(OffImage(other), decisions[1..]))[1..] == Filter(OffImage(other), decisions[1..]);
      }
    }
  }

  lemma {:induction false} CombinedElsewhere(images: seq<string>, decisions: seq<Decision>, other: string)
    requires other !in images
    ensures Combined(images, Filter(OffImage(other), decisions)) == Combined(images, decisions)
  {
    if images != [] {
      assert images == [images[0]] + images[1..];
      OtherImage(decisions, images[0], other);
      CombinedElsewhere(images[1..], decisions, other);
    }
  }

  /** `images` names every image of the decisions, without repeats. */
  ghost predicate Lists(images: seq<string>, decisions: seq<Decision>)
  {
    && (forall i, j :: 0 <= i < j < |images| ==> images[i] != images[j])
    && (forall x :: x in decisions ==> x.finding.core.image in images)
  }

  lemma {:induction false} ListsRest(images: seq<string>, decisions: seq<Decision>)
    requires Lists(images, decisions) && images != []
    ensures Lists(images[1..], Filter(OffImage(images[0]), decisions)) && images[0] !in images[1..]
  {
    assert images == [images[0]] + images[1..];
    FilterMembers(OffImage(images[0]), decisions);
  }

  /** The summaries of the images add up to the summary of the whole. */
  lemma {:induction false} SummariesAddUp(images: seq<string>, decisions: seq<Decision>)
    requires Lists(images, decisions)
    ensures Combined(images, decisions) == FindingSummary(decisions)
    decreases |images|
  {
    if images == [] {
      if decisions != [] {
        HasMember(decisions);
      }
    } else {
      var on, off := ForImage(decisions, images[0]), Filter(OffImage(images[0]), decisions);
      ListsRest(images, decisions);
      SummariesAddUp(images[1..], off);
      CombinedElsewhere(images[1..], decisions, images[0]);
      SplitByImage(decisions, images[0]);
      ReportPermutes(decisions, on + off);
      ReportConcat(on, off);
    }
  }

  const IMAGE_SPECS: seq<string> := ["control_plane", "workspace_base", "envbuilder"]

  lemma {:induction false} AcceptedDecision(fs: seq<Finding>, policy: Policy, digest: Digest, x: Decision)
    requires WellFormed(policy) && Audit(fs, policy, digest).Ok? && x in Audit(fs, policy, digest).value
    ensures x.finding.core.image in IMAGE_SPECS && IsDisposed(x)
  {
    OtherDecisionsAreBaselines(fs, policy, digest, x);
    AcceptedFinding(fs, policy, digest, x.finding);
  }

  lemma {:induction false} SpecsAreDistinct()
    ensures forall i, j :: 0 <= i < j < |IMAGE_SPECS| ==> IMAGE_SPECS[i] != IMAGE_SPECS[j]
  {
  }

  lemma {:induction false} AcceptedDecisions(fs: seq<Finding>, policy: Policy, digest: Digest, decisions: seq<Decision>)
    requires WellFormed(policy) && Audit(fs, policy, digest) == Ok(decisions)
    ensures forall x :: x in decisions ==> x.finding.core.image in IMAGE_SPECS && IsDisposed(x)
  {
    forall x | x in decisions ensures x.finding.core.image in IMAGE_SPECS && IsDisposed(x) {
      AcceptedDecision(fs, policy, digest, x);
    }
  }

  /** After an accepted audit the three published image summaries add up to the published whole. */
  lemma {:induction false} AcceptedSummariesAddUp(fs: seq<Finding>, policy: Policy, digest: Digest)
    requires WellFormed(policy) && Audit(fs, policy, digest).Ok?
    ensures Combined(IMAGE_SPECS, Audit(fs, policy, digest).value) == FindingSummary(Audit(fs, policy, digest).value)
    ensures FindingSummary(Audit(fs, policy, digest).value).undispositioned == 0
    ensures FindingSummary(Audit(fs, policy, digest).value).total == |fs|
  {
    var decisions := Audit(fs, policy, digest).value;
    AcceptedDecisions(fs, policy, digest, decisions);
    SpecsAreDistinct();
    AllDisposed(decisions);
    SummariesAddUp(IMAGE_SPECS, decisions);
    AuditDecisions(fs, policy, digest);
    AssignShape(ByMatch(policy.dispositions), fs);
  }

  lemma {:induction false} AllDisposed(decisions: seq<Decision>)
    requires forall x :: x in decisions ==> IsDisposed(x)
    ensures Filter(IsDisposed, decisions) == decisions
  {
    if decisions != [] {
      assert decisions == [decisions[0]] + decisions[1..];
      AllDisposed(decisions[1..]);
    }
  }

  // ----- The loops

  method AssignDispositions(fs: seq<Finding>, ds: seq<Disposition>) returns (decisions: seq<Decision>, used: set<string>)
    ensures decisions == Assign(ByMatch(ds), fs) && used == Used(decisions)
  {
    var table: map<seq<string>, Disposition> := map[];
    for n := 0 to |ds|
      invariant table == ByMatch(ds[..n])
    {
      assert ds[..n + 1][..n] == ds[..n];
      table := table[MatchKey(ds[n].exact) := ds[n]];
    }
    assert ds[..|ds|] == ds;
    decisions, used := [], {};
    for n := 0 to |fs|
      invariant decisions == Assign(table, fs[..n]) && used == Used(decisions)
    {
      assert fs[..n + 1][..n] == fs[..n];
      var f := fs[n];
      var k := MatchKey(f);
      UsedSnoc(decisions, Decide(table, used, f));
      if k !in table || table[k].id in used {
        decisions := decisions + [Decision(f, None)];
      } else {
        used := used + {table[k].id};
        decisions := decisions + [Decision(f, Some(table[k].id))];
      }
    }
    assert fs[..|fs|] == fs;
  }

  /** Positions among the first `n` decisions that are left over and of `image`, in order. */
  function Positions(decisions: seq<Decision>, image: string, n: nat): (r: seq<nat>)
    requires n <= |decisions|
    ensures forall i: nat :: i in r <==> i < n && IsLeft(decisions[i]) && decisions[i].finding.core.image == image
  {
    if n == 0 then []
    else if IsLeft(decisions[n - 1]) && decisions[n - 1].finding.core.image == image
    then Positions(decisions, image, n - 1) + [n - 1]
    else Positions(decisions, image, n - 1)
  }

  /** The findings at given positions. */
  function At(decisions: seq<Decision>, indices: seq<nat>): seq<Finding>
    requires forall i :: i in indices ==> i < |decisions|
  {
    seq(|indices|, j requires 0 <= j < |indices| => assert indices[j] in indices; decisions[indices[j]].finding)
  }

  lemma {:induction false} LeftOverSnoc(decisions: seq<Decision>, n: nat)
    requires n < |decisions|
    ensures LeftOver(decisions[..n + 1]) == LeftOver(decisions[..n]) + if IsLeft(decisions[n]) then [decisions[n].finding] else []
  {
    assert decisions[..n + 1] == decisions[..n] + [decisions[n]];
    FilterConcat(IsLeft, decisions[..n], [decisions[n]]);
    assert Filter(IsLeft, [decisions[n]]) == if IsLeft(decisions[n]) then [decisions[n]] else [];
    MapConcat(FindingOf, Filter(IsLeft, decisions[..n]), Filter(IsLeft, [decisions[n]]));
  }

  lemma {:induction false} OfImageSnoc(left: seq<Finding>, f: Finding, image: string)
    ensures OfImage(left + [f], image) == OfImage(left, image) + if f.core.image == image then [f] else []
  {
    FilterConcat(InImage(image), left, [f]);
    assert Filter(InImage(image), [f]) == if f.core.image == image then [f] else [];
  }

  lemma {:induction false} PositionsStep(decisions: seq<Decision>, image: string, n: nat, left: seq<Finding>, left': seq<Finding>)
    requires n < |decisions| && At(decisions, Positions(decisions, image, n)) == OfImage(left, image)
    requires left' == left + if IsLeft(decisions[n]) then [decisions[n].finding] else []
    ensures At(decisions, Positions(decisions, image, n + 1)) == OfImage(left', image)
  {
    var x := decisions[n];
    if IsLeft(x) {
      OfImageSnoc(left, x.finding, image);
      if x.finding.core.image == image {
        AtSnoc(decisions, Positions(decisions, image, n), n);
      } else {
        assert OfImage(left, image) + [] == OfImage(left, image);
      }
    } else {
      assert left + [] == left;
    }
  }

  /** Collecting positions and collecting findings agree. */
  lemma {:induction false} PositionsMeaning(decisions: seq<Decision>, image: string, n: nat)
    requires n <= |decisions|
    ensures At(decisions, Positions(decisions, image, n)) == OfImage(LeftOver(decisions[..n]), image)
  {
    if n == 0 {
      assert decisions[..0] == [];
    } else {
      PositionsMeaning(decisions, image, n - 1);
      LeftOverSnoc(decisions, n - 1);
      PositionsStep(decisions, image, n - 1, LeftOver(decisions[..n - 1]), LeftOver(decisions[..n]));
    }
  }

  lemma {:induction false} AtSnoc(decisions: seq<Decision>, indices: seq<nat>, i: nat)
    requires i < |decisions| && forall j :: j in indices ==> j < |decisions|
    ensures At(decisions, indices + [i]) == At(decisions, indices) + [decisions[i].finding]
  {
    assert forall j :: j in indices + [i] ==> j < |decisions|;
  }

  /** `remaining` groups the left-over positions among the first `n` by image. */
  ghost predicate Collected(first: seq<Decision>, n: nat, remaining: map<string, seq<nat>>)
    requires n <= |first|
  {
    && (forall image :: image in remaining ==> remaining[image] == Positions(first, image, n))
    && (forall image :: image !in remaining ==> Positions(first, image, n) == [])
  }

  /** One more position. */
  function Grouped(remaining: map<string, seq<nat>>, image: string, n: nat): map<string, seq<nat>>
  {
    remaining[image := (if image in remaining then remaining[image] else []) + [n]]
  }

  lemma {:induction false} CollectStep(first: seq<Decision>, n: nat, remaining: map<string, seq<nat>>)
    requires n < |first| && Collected(first, n, remaining)
    ensures Collected(first, n + 1, if IsLeft(first[n]) then Grouped(remaining, first[n].finding.core.image, n) else remaining)
  {
  }

  lemma {:induction false} ImagesStep(first: seq<Decision>, n: nat)
    requires n < |first|
    ensures Values(Map(ImageOf, LeftOver(first[..n + 1])))
         == Values(Map(ImageOf, LeftOver(first[..n]))) + if IsLeft(first[n]) then {first[n].finding.core.image} else {}
  {
    var left, f := LeftOver(first[..n]), first[n].finding;
    LeftOverSnoc(first, n);
    MapConcat(ImageOf, left, [f]);
    assert Map(ImageOf, [f]) == [f.core.image];
    ValuesSnoc(Map(ImageOf, left), f.core.image);
    assert left + [] == left;
  }

  method CollectRemaining(first: seq<Decision>) returns (remaining: map<string, seq<nat>>)
    ensures remaining.Keys == Values(Map(ImageOf, LeftOver(first)))
    ensures Collected(first, |first|, remaining)
  {
    remaining := map[];
    for n := 0 to |first|
      invariant remaining.Keys == Values(Map(ImageOf, LeftOver(first[..n])))
      invariant Collected(first, n, remaining)
    {
      ImagesStep(first, n);
      CollectStep(first, n, remaining);
      if IsLeft(first[n]) {
        remaining := Grouped(remaining, first[n].finding.core.image, n);
      }
    }
    assert first[..|first|] == first;
  }

  lemma {:induction false} ValuesSnoc(s: seq<string>, x: string)
    ensures Values(s + [x]) == Values(s) + {x}
  {
  }

  lemma {:induction false} BaselineIdSnoc(bs: seq<Baseline>, k: nat, image: string)
    requires k < |bs|
    ensures BaselineId(bs[..k + 1], image) == if bs[k].image == image then Some(bs[k].id) else BaselineId(bs[..k], image)
  {
    assert bs[..k + 1][..k] == bs[..k];
  }

  method SetIds(before: seq<Decision>, indices: seq<nat>, id: string) returns (after: seq<Decision>)
    requires forall i :: i in indices ==> i < |before|
    ensures |after| == |before|
    ensures forall i: nat :: i < |before| ==> after[i] == if i in indices then Decision(before[i].finding, Some(id)) else before[i]
  {
    after := before;
    for j := 0 to |indices|
      invariant |after| == |before|
      invariant forall i: nat :: i < |before| ==>
                  after[i] == if i in indices[..j] then Decision(before[i].finding, Some(id)) else before[i]
    {
      assert indices[j] in indices;
      assert indices[..j + 1] == indices[..j] + [indices[j]];
      after := after[indices[j] := Decision(after[indices[j]].finding, Some(id))];
    }
    assert indices[..|indices|] == indices;
  }

  lemma {:induction false} SettleStep(first: seq<Decision>, after: seq<Decision>, indices: seq<nat>, bs: seq<Baseline>, k: nat, i: nat)
    requires k < |bs| && i < |first| == |after| && indices == Positions(first, bs[k].image, |first|)
    requires after[i] == if i in indices then Decision(Map(Settle(bs[..k]), first)[i].finding, Some(bs[k].id)) else Map(Settle(bs[..k]), first)[i]
    ensures after[i] == Map(Settle(bs[..k + 1]), first)[i]
  {
    MapAt(Settle(bs[..k]), first, i);
    MapAt(Settle(bs[..k + 1]), first, i);
    BaselineIdSnoc(bs, k, first[i].finding.core.image);
  }

  lemma {:induction false} FailureStep(bs: seq<Baseline>, k: nat, left: seq<Finding>, digest: Digest)
    requires k < |bs|
    ensures var e := Check(bs[k], OfImage(left, bs[k].image), digest);
            FirstFailure(bs[k..], left, digest) == if e.Some? then e else FirstFailure(bs[k + 1..], left, digest)
  {
    assert bs[k..][0] == bs[k] && bs[k..][1..] == bs[k + 1..];
  }

  lemma {:induction false} AllPositions(first: seq<Decision>, image: string)
    ensures At(first, Positions(first, image, |first|)) == OfImage(LeftOver(first), image)
  {
    PositionsMeaning(first, image, |first|);
    assert first[..|first|] == first;
  }

  lemma {:induction false} SettleAll(first: seq<Decision>, after: seq<Decision>, indices: seq<nat>, bs: seq<Baseline>, k: nat)
    requires k < |bs| && |first| == |after| && indices == Positions(first, bs[k].image, |first|)
    requires forall i: nat :: i < |first| ==>
               after[i] == if i in indices then Decision(Map(Settle(bs[..k]), first)[i].finding, Some(bs[k].id)) else Map(Settle(bs[..k]), first)[i]
    ensures after == Map(Settle(bs[..k + 1]), first)
  {
    forall i: nat | i < |first| ensures after[i] == Map(Settle(bs[..k + 1]), first)[i] {
      SettleStep(first, after, indices, bs, k, i);
    }
  }

  method CheckBaseline(b: Baseline, actual: seq<Finding>, digest: Digest) returns (e: Option<AuditError>)
    ensures e == Check(b, actual, digest)
  {
    if actual == [] {
      return Some(BaselineUnexercised(b.image));
    }
    var summary := LicenseBaselineSummary(actual, digest);
    if summary.Err? {
      return Some(summary.error);
    }
    e := if summary.value != Expected(b) then Some(BaselineMismatch(b.image)) else None;
  }

  method ReviewLicenses(first: seq<Decision>, bs: seq<Baseline>, digest: Digest) returns (r: Result<seq<Decision>, AuditError>)
    ensures r == Review(first, bs, digest)
  {
    var remaining := CollectRemaining(first);
    var missing := remaining.Keys - ReviewedImages(bs);
    if missing != {} {
      return Err(NoBaseline(missing));
    }
    var decisions := first;
    ghost var left := LeftOver(first);
    SettleNothing(first);
    assert bs[..0] == [] && bs[0..] == bs;
    for k := 0 to |bs|
      invariant decisions == Map(Settle(bs[..k]), first)
      invariant FirstFailure(bs, left, digest) == FirstFailure(bs[k..], left, digest)
    {
      var b := bs[k];
      var indices := if b.image in remaining then remaining[b.image] else [];
      AllPositions(first, b.image);
      var actual := At(first, indices);
      FailureStep(bs, k, left, digest);
      var e := CheckBaseline(b, actual, digest);
      if e.Some? {
        return Err(e.value);
      }
      var after := SetIds(decisions, indices, b.id);
      SettleAll(first, after, indices, bs, k);
      decisions := after;
    }
    assert bs[..|bs|] == bs;
    r := Ok(decisions);
  }

  method EvaluateDispositions(fs: seq<Finding>, policy: Policy, digest: Digest) returns (r: Result<seq<Decision>, AuditError>)
    ensures r == Outcome(fs, policy, digest)
  {
    if policy.schema != 1 && policy.schema != 2 {
      return Err(UnsupportedSchema);
    }
    if !AllOfSchema(fs, policy.schema) {
      return Err(OtherSchema);
    }
    var decisions, used := AssignDispositions(fs, policy.dispositions);
    var unused := Unspent(policy.dispositions, used);
    if unused != {} {
      return Err(Unexercised(unused));
    }
    if policy.schema == 2 {
      r := ReviewLicenses(decisions, policy.baselines, digest);
    } else {
      r := Ok(decisions);
    }
  }
}
