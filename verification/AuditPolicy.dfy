/**
 * Image findings and the policy that disposes of them: match keys, the parser of a policy's exact matches and
 * the rules under which a policy is loaded (scripts/infra_image_audit.py).
 *
 * Dates are day numbers; an expiry text that is no date is `None`. A JSON object that the loader reads by
 * name is a map, one that it walks through is a list of entries with distinct names.
 */
module AuditPolicy {
  import opened Common
  import opened Ordering
  import opened Permutations

  datatype Core = Core(
    image: string, kind: string, category: string, target: string, findingId: string,
    package: string, version: string, severity: string, path: string)

  /** The two evidence schemas. */
  datatype Finding =
    | V1(core: Core)
    | V2(core: Core, resultClass: string, resultType: string, status: string, fixedVersion: string, packagePurl: string)

  predicate OfSchema(f: Finding, schema: int)
  {
    if schema == 1 then f.V1? else f.V2?
  }

  function CoreKey(c: Core): seq<string>
  {
    [c.image, c.kind, c.category, c.target, c.findingId, c.package, c.version, c.severity, c.path]
  }

  function MatchKey(f: Finding): seq<string>
  {
    match f
    case V1(c) => CoreKey(c)
    case V2(c, resultClass, resultType, status, fixedVersion, purl) =>
      CoreKey(c) + [resultClass, resultType, status, fixedVersion, purl]
  }

  lemma {:induction false} CoreKeyInjective(c: Core, d: Core)
    requires CoreKey(c) == CoreKey(d)
    ensures c == d
  {
    var a, b := CoreKey(c), CoreKey(d);
    assert a[0] == b[0] && a[1] == b[1] && a[2] == b[2] && a[3] == b[3] && a[4] == b[4];
    assert a[5] == b[5] && a[6] == b[6] && a[7] == b[7] && a[8] == b[8];
  }

  /** Two findings have the same match key only if they are the same finding. */
  lemma {:induction false} MatchKeyInjective(f: Finding, g: Finding)
    ensures MatchKey(f) == MatchKey(g) <==> f == g
  {
    var a, b := MatchKey(f), MatchKey(g);
    if a == b {
      assert |a| == if f.V1? then 9 else 14;
      assert |b| == if g.V1? then 9 else 14;
      assert CoreKey(f.core) == a[..9] && CoreKey(g.core) == b[..9];
      CoreKeyInjective(f.core, g.core);
      if f.V2? {
        assert a[9] == b[9] && a[10] == b[10] && a[11] == b[11] && a[12] == b[12] && a[13] == b[13];
      }
    }
  }

  // ----- Forbidden licenses

  function Fold(c: char): char
  {
    if 'A' <= c <= 'Z' then (c as int + 32) as char else c
  }

  /** No letter outside A-Z folds to a letter of this word, so folding the ASCII letters decides it. */
  predicate IsForbiddenCategory(category: string)
  {
    Map(Fold, Strip(category)) == "forbidden"
  }

  /** The word `forbidden` in any mixture of capital and small letters. */
  ghost predicate SpellsForbidden(w: string)
  {
    |w| == 9 && forall i :: 0 <= i < 9 ==> w[i] == "forbidden"[i] || w[i] == "FORBIDDEN"[i]
  }

  lemma {:induction false} FoldedLetter(c: char, i: nat)
    requires i < 9
    ensures Fold(c) == "forbidden"[i] <==> c == "forbidden"[i] || c == "FORBIDDEN"[i]
  {
  }

  lemma {:induction false} FoldedWord(w: string)
    ensures Map(Fold, w) == "forbidden" <==> SpellsForbidden(w)
  {
    if |w| == 9 {
      forall i | 0 <= i < 9 ensures Map(Fold, w)[i] == "forbidden"[i] <==> w[i] == "forbidden"[i] || w[i] == "FORBIDDEN"[i] {
        MapAt(Fold, w, i);
        FoldedLetter(w[i], i);
      }
    }
  }

  ghost predicate ForbiddenBetween(category: string, a: string, w: string, b: string)
  {
    category == a + w + b && Spaces(a) && Spaces(b) && SpellsForbidden(w)
  }

  lemma {:induction false} WordHasNoSpace(w: string)
    requires SpellsForbidden(w)
    ensures w != "" && !IsSpace(w[0]) && !IsSpace(w[|w| - 1])
  {
  }

  /** A category is forbidden exactly when it is that word, perhaps with space around it. */
  lemma {:induction false} ForbiddenIff(category: string)
    ensures IsForbiddenCategory(category) <==> exists a, w, b :: ForbiddenBetween(category, a, w, b)
  {
    FoldedWord(Strip(category));
    if IsForbiddenCategory(category) {
      var a, b := StripParts(category);
      assert ForbiddenBetween(category, a, Strip(category), b);
    }
    if a, w, b :| ForbiddenBetween(category, a, w, b) {
      WordHasNoSpace(w);
      StripAround(a, w, b);
    }
  }

  predicate IsForbiddenLicense(f: Finding)
  {
    f.core.kind == "license" && IsForbiddenCategory(f.core.category)
  }

  // ----- Reading an exact match

  datatype Json = Text(text: string) | Number(number: int) | Other

  predicate Plain(c: char) { c as int >= 32 }

  predicate NoGlob(c: char) { c !in "*?[]" }

  predicate PolicyText(s: string, allowEmpty: bool, maximum: nat, rejectGlobs: bool)
  {
    && |s| <= maximum
    && (allowEmpty || s != [])
    && (forall c :: c in s ==> Plain(c))
    && (rejectGlobs ==> forall c :: c in s ==> NoGlob(c))
  }

  const IMAGES: set<string> := {"control_plane", "workspace_base", "envbuilder"}
  const KINDS: set<string> := {"vulnerability", "secret", "license"}
  const SEVERITIES: set<string> := {"UNKNOWN", "HIGH", "CRITICAL"}

  predicate CoreExpressible(c: Core)
  {
    && PolicyText(c.image, false, 64, true) && c.image in IMAGES
    && PolicyText(c.kind, false, 32, true) && c.kind in KINDS
    && PolicyText(c.severity, false, 16, true) && c.severity in SEVERITIES
    && PolicyText(c.category, true, 256, true)
    && PolicyText(c.target, false, 4096, true)
    && PolicyText(c.findingId, false, 256, true)
    && PolicyText(c.package, true, 1024, true)
    && PolicyText(c.version, true, 512, true)
    && PolicyText(c.path, true, 4096, true)
  }

  /** The findings that an exact match can name. */
  predicate Expressible(f: Finding)
  {
    && CoreExpressible(f.core)
    && (f.V2? ==>
          && PolicyText(f.resultClass, true, 256, true)
          && PolicyText(f.resultType, true, 256, true)
          && PolicyText(f.status, true, 256, true)
          && PolicyText(f.fixedVersion, true, 512, true)
          && PolicyText(f.packagePurl, true, 4096, false))
  }

  const CORE_FIELDS: set<string> :=
    {"image", "kind", "category", "target", "finding_id", "package", "version", "severity", "path"}

  const EXTRA_FIELDS: set<string> :=
    {"result_class", "result_type", "status", "fixed_version", "package_purl"}

  function CoreEntries(c: Core): map<string, Json>
  {
    map["image" := Text(c.image), "kind" := Text(c.kind), "category" := Text(c.category), "target" := Text(c.target),
        "finding_id" := Text(c.findingId), "package" := Text(c.package), "version" := Text(c.version),
        "severity" := Text(c.severity), "path" := Text(c.path)]
  }

  function ExtraEntries(f: Finding): map<string, Json>
    requires f.V2?
  {
    map["result_class" := Text(f.resultClass), "result_type" := Text(f.resultType), "status" := Text(f.status),
        "fixed_version" := Text(f.fixedVersion), "package_purl" := Text(f.packagePurl)]
  }

  /** The document a finding is written as. */
  function MatchDocument(f: Finding): map<string, Json>
  {
    if f.V1? then CoreEntries(f.core) else CoreEntries(f.core) + ExtraEntries(f)
  }

  ghost predicate CoreAgrees(document: map<string, Json>, c: Core)
    requires CORE_FIELDS <= document.Keys
  {
    && document["image"] == Text(c.image) && document["kind"] == Text(c.kind)
    && document["category"] == Text(c.category) && document["target"] == Text(c.target)
    && document["finding_id"] == Text(c.findingId) && document["package"] == Text(c.package)
    && document["version"] == Text(c.version) && document["severity"] == Text(c.severity)
    && document["path"] == Text(c.path)
  }

  ghost predicate ExtrasAgree(document: map<string, Json>, f: Finding)
    requires EXTRA_FIELDS <= document.Keys && f.V2?
  {
    && document["result_class"] == Text(f.resultClass) && document["result_type"] == Text(f.resultType)
    && document["status"] == Text(f.status) && document["fixed_version"] == Text(f.fixedVersion)
    && document["package_purl"] == Text(f.packagePurl)
  }

  function PolicyString(value: Json, allowEmpty: bool, maximum: nat, rejectGlobs: bool): Option<string>
  {
    if !value.Text? || |value.text| > maximum then None
    else if !allowEmpty && value.text == [] then None
    else if exists c :: c in value.text && !Plain(c) then None
    else if rejectGlobs && exists c :: c in value.text && !NoGlob(c) then None
    else Some(value.text)
  }

  function OneOf(value: Option<string>, allowed: set<string>): Option<string>
  {
    if value.Some? && value.value in allowed then value else None
  }

  function ParseCore(document: map<string, Json>): Option<Core>
    requires CORE_FIELDS <= document.Keys
  {
    var image := OneOf(PolicyString(document["image"], false, 64, true), IMAGES);
    var kind := OneOf(PolicyString(document["kind"], false, 32, true), KINDS);
    var severity := OneOf(PolicyString(document["severity"], false, 16, true), SEVERITIES);
    var category := PolicyString(document["category"], true, 256, true);
    var target := PolicyString(document["target"], false, 4096, true);
    var findingId := PolicyString(document["finding_id"], false, 256, true);
    var package := PolicyString(document["package"], true, 1024, true);
    var version := PolicyString(document["version"], true, 512, true);
    var path := PolicyString(document["path"], true, 4096, true);
    if image.Some? && kind.Some? && severity.Some? && category.Some? && target.Some? && findingId.Some?
       && package.Some? && version.Some? && path.Some?
    then Some(Core(image.value, kind.value, category.value, target.value, findingId.value,
                   package.value, version.value, severity.value, path.value))
    else None
  }

  function ParsePolicyFinding(document: map<string, Json>, schema: int): Option<Finding>
  {
    if document.Keys != (if schema == 1 then CORE_FIELDS else CORE_FIELDS + EXTRA_FIELDS) then None
    else
      var core := ParseCore(document);
      if core.None? then None
      else if schema == 1 then Some(V1(core.value))
      else
        var resultClass := PolicyString(document["result_class"], true, 256, true);
        var resultType := PolicyString(document["result_type"], true, 256, true);
        var status := PolicyString(document["status"], true, 256, true);
        var fixedVersion := PolicyString(document["fixed_version"], true, 512, true);
        var purl := PolicyString(document["package_purl"], true, 4096, false);
        if resultClass.Some? && resultType.Some? && status.Some? && fixedVersion.Some? && purl.Some?
        then Some(V2(core.value, resultClass.value, resultType.value, status.value, fixedVersion.value, purl.value))
        else None
  }

  lemma {:induction false} PolicyStringMeaning(value: Json, allowEmpty: bool, maximum: nat, rejectGlobs: bool, s: string)
    ensures PolicyString(value, allowEmpty, maximum, rejectGlobs) == Some(s)
       <==> value == Text(s) && PolicyText(s, allowEmpty, maximum, rejectGlobs)
  {
  }

  lemma {:induction false} ParseCoreMeaning(document: map<string, Json>, c: Core)
    requires CORE_FIELDS <= document.Keys
    ensures ParseCore(document) == Some(c) <==> CoreExpressible(c) && CoreAgrees(document, c)
  {
    PolicyStringMeaning(document["image"], false, 64, true, c.image);
    PolicyStringMeaning(document["kind"], false, 32, true, c.kind);
    PolicyStringMeaning(document["severity"], false, 16, true, c.severity);
    PolicyStringMeaning(document["category"], true, 256, true, c.category);
    PolicyStringMeaning(document["target"], false, 4096, true, c.target);
    PolicyStringMeaning(document["finding_id"], false, 256, true, c.findingId);
    PolicyStringMeaning(document["package"], true, 1024, true, c.package);
    PolicyStringMeaning(document["version"], true, 512, true, c.version);
    PolicyStringMeaning(document["path"], true, 4096, true, c.path);
  }

  lemma {:induction false} ParseExtrasMeaning(document: map<string, Json>, f: Finding)
    requires document.Keys == CORE_FIELDS + EXTRA_FIELDS && f.V2?
    ensures ParsePolicyFinding(document, 2) == Some(f) <==>
            Expressible(f) && CoreAgrees(document, f.core) && ExtrasAgree(document, f)
  {
    ParseCoreMeaning(document, f.core);
    PolicyStringMeaning(document["result_class"], true, 256, true, f.resultClass);
    PolicyStringMeaning(document["result_type"], true, 256, true, f.resultType);
    PolicyStringMeaning(document["status"], true, 256, true, f.status);
    PolicyStringMeaning(document["fixed_version"], true, 512, true, f.fixedVersion);
    PolicyStringMeaning(document["package_purl"], true, 4096, false, f.packagePurl);
  }

  lemma {:induction false} CoreLookup(document: map<string, Json>, c: Core)
    requires CORE_FIELDS <= document.Keys
    ensures CoreEntries(c).Keys == CORE_FIELDS
    ensures CoreAgrees(document, c) <==> forall k :: k in CORE_FIELDS ==> document[k] == CoreEntries(c)[k]
  {
    var e := CoreEntries(c);
    assert e.Keys == CORE_FIELDS;
    assert CoreAgrees(document, c) <==>
           && document["image"] == e["image"] && document["kind"] == e["kind"] && document["category"] == e["category"]
           && document["target"] == e["target"] && document["finding_id"] == e["finding_id"]
           && document["package"] == e["package"] && document["version"] == e["version"]
           && document["severity"] == e["severity"] && document["path"] == e["path"];
  }

  lemma {:induction false} ExtraLookup(document: map<string, Json>, f: Finding)
    requires EXTRA_FIELDS <= document.Keys && f.V2?
    ensures ExtraEntries(f).Keys == EXTRA_FIELDS
    ensures ExtrasAgree(document, f) <==> forall k :: k in EXTRA_FIELDS ==> document[k] == ExtraEntries(f)[k]
  {
    var e := ExtraEntries(f);
    assert e.Keys == EXTRA_FIELDS;
    assert ExtrasAgree(document, f) <==>
           && document["result_class"] == e["result_class"] && document["result_type"] == e["result_type"]
           && document["status"] == e["status"] && document["fixed_version"] == e["fixed_version"]
           && document["package_purl"] == e["package_purl"];
  }

  lemma {:induction false} FieldsApart(k: string)
    requires k in CORE_FIELDS
    ensures k !in EXTRA_FIELDS
  {
  }

  lemma {:induction false} MergedLookup(document: map<string, Json>, a: map<string, Json>, b: map<string, Json>)
    requires a.Keys !! b.Keys && document.Keys == a.Keys + b.Keys
    ensures document == a + b <==> (forall k :: k in a ==> document[k] == a[k]) && (forall k :: k in b ==> document[k] == b[k])
  {
    if document == a + b {
      forall k | k in a ensures document[k] == a[k] { assert k !in b; }
    }
  }

  lemma {:induction false} DocumentKeys(f: Finding)
    ensures MatchDocument(f).Keys == if f.V1? then CORE_FIELDS else CORE_FIELDS + EXTRA_FIELDS
  {
    assert CoreEntries(f.core).Keys == CORE_FIELDS;
    if f.V2? {
      assert ExtraEntries(f).Keys == EXTRA_FIELDS;
    }
  }

  lemma {:induction false} FullDocument(document: map<string, Json>, f: Finding)
    requires document.Keys == CORE_FIELDS + EXTRA_FIELDS && f.V2?
    ensures document == MatchDocument(f) <==> CoreAgrees(document, f.core) && ExtrasAgree(document, f)
  {
    CoreLookup(document, f.core);
    ExtraLookup(document, f);
    forall k | k in CORE_FIELDS ensures k !in EXTRA_FIELDS { FieldsApart(k); }
    MergedLookup(document, CoreEntries(f.core), ExtraEntries(f));
  }

  /** The parser accepts exactly the documents that expressible findings are written as, and inverts the writer. */
  lemma {:induction false} ParseInvertsDocument(document: map<string, Json>, schema: int, f: Finding)
    requires schema == 1 || schema == 2
    ensures ParsePolicyFinding(document, schema) == Some(f) <==>
            document == MatchDocument(f) && Expressible(f) && OfSchema(f, schema)
  {
    DocumentKeys(f);
    if schema == 1 && f.V1? && document.Keys == CORE_FIELDS {
      ParseCoreMeaning(document, f.core);
      CoreLookup(document, f.core);
    } else if schema == 2 && f.V2? && document.Keys == CORE_FIELDS + EXTRA_FIELDS {
      ParseExtrasMeaning(document, f);
      FullDocument(document, f);
    }
  }

  // ----- Count maps of a license baseline

  const MAXIMUM_BASELINE_LICENSES: nat := 4096

  predicate PairLess(a: (string, int), b: (string, int))
  {
    StringLess(a.0, b.0) || (a.0 == b.0 && a.1 < b.1)
  }

  function Total(counts: seq<(string, int)>): int
  {
    if counts == [] then 0 else counts[0].1 + Total(counts[1..])
  }

  predicate EntryOk(entry: (string, Json), allowed: Option<set<string>>)
  {
    && PolicyText(entry.0, true, 256, false)
    && (allowed.Some? ==> entry.0 in allowed.value)
    && entry.1.Number? && 0 < entry.1.number <= MAXIMUM_BASELINE_LICENSES
  }

  function EntryCount(entry: (string, Json)): (string, int)
  {
    (entry.0, if entry.1.Number? then entry.1.number else 0)
  }

  predicate CountsOk(entries: seq<(string, Json)>, allowed: Option<set<string>>)
  {
    && 0 < |entries| <= 256
    && forall i :: 0 <= i < |entries| ==> EntryOk(entries[i], allowed)
  }

  method PolicyCountMap(entries: seq<(string, Json)>, allowed: Option<set<string>>) returns (r: Option<seq<(string, int)>>)
    ensures r.Some? <==> CountsOk(entries, allowed)
    ensures r.Some? ==> r.value == Sort(PairLess, Map(EntryCount, entries))
  {
    if entries == [] || |entries| > 256 {
      return None;
    }
    var counts := [];
    for i := 0 to |entries|
      invariant forall j :: 0 <= j < i ==> EntryOk(entries[j], allowed)
      invariant counts == Map(EntryCount, entries[..i])
    {
      var key, value := entries[i].0, entries[i].1;
      if PolicyString(Text(key), true, 256, false).None? {
        PolicyStringMeaning(Text(key), true, 256, false, key);
        return None;
      }
      PolicyStringMeaning(Text(key), true, 256, false, key);
      if allowed.Some? && key !in allowed.value {
        return None;
      }
      if !value.Number? || value.number <= 0 || value.number > MAXIMUM_BASELINE_LICENSES {
        return None;
      }
      assert entries[..i + 1] == entries[..i] + [entries[i]];
      MapConcat(EntryCount, entries[..i], [entries[i]]);
      assert Map(EntryCount, [entries[i]]) == [(key, value.number)];
      counts := counts + [(key, value.number)];
    }
    assert entries[..|entries|] == entries;
    r := Some(Sort(PairLess, counts));
  }

  // ----- Loading a policy

  datatype Disposition = Disposition(id: string, expiresOn: int, statement: string, exact: Finding)

  datatype Baseline = Baseline(
    id: string, image: string, expiresOn: int, statement: string, findingCount: int, digest: string,
    categoryCounts: seq<(string, int)>, severityCounts: seq<(string, int)>)

  datatype Policy = Policy(schema: int, policyId: string, dispositions: seq<Disposition>, baselines: seq<Baseline>)

  /** Records as decoded; `fields` are the names that occur in them. */
  datatype RawDisposition = RawDisposition(
    fields: set<string>, id: string, expiresOn: Option<int>, statement: string, exact: map<string, Json>)

  datatype RawBaseline = RawBaseline(
    fields: set<string>, id: string, image: string, expiresOn: Option<int>, statement: string, algorithm: string, findingCount: int,
    digest: string, categoryCounts: seq<(string, Json)>, severityCounts: seq<(string, Json)>)

  /** The whole document; `baselines` is read only if the schema has it. */
  datatype Document = Document(
    fields: set<string>, schema: Json, policyId: Json, dispositions: seq<RawDisposition>, baselines: seq<RawBaseline>)

  const DISPOSITION_FIELDS: set<string> := {"id", "expires_on", "statement", "match"}
  const BASELINE_FIELDS: set<string> :=
    {"id", "image", "expires_on", "statement", "algorithm", "finding_count", "canonical_sha256", "category_counts", "severity_counts"}
  const POLICY_FIELDS: set<string> := {"schema_version", "policy_id", "dispositions"}
  const ALGORITHM: string := "sha256-json-sorted-v2-match-key-multiset-v1"
  const MAXIMUM_DISPOSITION_DAYS: int := 90
  const MAXIMUM_DISPOSITIONS: nat := 256
  const MAXIMUM_BASELINES: nat := 16

  predicate IdOk(id: string)
  {
    && 6 <= |id| <= 64
    && 'A' <= id[0] <= 'Z'
    && forall i :: 1 <= i < |id| ==> 'A' <= id[i] <= 'Z' || '0' <= id[i] <= '9' || id[i] == '-'
  }

  predicate DigestOk(d: string)
  {
    |d| == 64 && forall i :: 0 <= i < |d| ==> '0' <= d[i] <= '9' || 'a' <= d[i] <= 'f'
  }

  predicate ExpiryOk(e: Option<int>, today: int)
  {
    e.Some? && today <= e.value <= today + MAXIMUM_DISPOSITION_DAYS
  }

  predicate StatementOk(s: string)
  {
    |s| >= 20 && PolicyText(s, false, 2000, false)
  }

  function LoadDisposition(raw: RawDisposition, schema: int, today: int): Option<Disposition>
  {
    if raw.fields != DISPOSITION_FIELDS || !IdOk(raw.id) || !ExpiryOk(raw.expiresOn, today) || !StatementOk(raw.statement) then None
    else
      var f := ParsePolicyFinding(raw.exact, schema);
      if f.None? then None else Some(Disposition(raw.id, raw.expiresOn.value, raw.statement, f.value))
  }

  predicate NoForbidden(counts: seq<(string, int)>)
  {
    forall i :: 0 <= i < |counts| ==> !IsForbiddenCategory(counts[i].0)
  }

  /** What the loader asks of one baseline record. */
  predicate BaselineOk(raw: RawBaseline, today: int)
  {
    && raw.fields == BASELINE_FIELDS && IdOk(raw.id) && PolicyText(raw.image, false, 64, true) && raw.image in IMAGES
    && ExpiryOk(raw.expiresOn, today) && StatementOk(raw.statement)
    && raw.algorithm == ALGORITHM && 0 < raw.findingCount <= MAXIMUM_BASELINE_LICENSES && DigestOk(raw.digest)
    && CountsOk(raw.categoryCounts, None) && CountsOk(raw.severityCounts, Some(SEVERITIES))
    && Total(Map(EntryCount, raw.categoryCounts)) == raw.findingCount
    && Total(Map(EntryCount, raw.severityCounts)) == raw.findingCount
    && NoForbidden(Map(EntryCount, raw.categoryCounts))
  }

  function LoadedBaseline(raw: RawBaseline): Baseline
    requires raw.expiresOn.Some?
  {
    Baseline(raw.id, raw.image, raw.expiresOn.value, raw.statement, raw.findingCount, raw.digest,
             Sort(PairLess, Map(EntryCount, raw.categoryCounts)), Sort(PairLess, Map(EntryCount, raw.severityCounts)))
  }

  lemma {:induction false} TotalInsert(x: (string, int), s: seq<(string, int)>)
    ensures Total(Insert(PairLess, x, s)) == x.1 + Total(s)
  {
    if s != [] && PairLess(s[0], x) {
      TotalInsert(x, s[1..]);
    }
  }

  /** Sorting the counts does not change their sum. */
  lemma {:induction false} TotalSort(s: seq<(string, int)>)
    ensures Total(Sort(PairLess, s)) == Total(s)
  {
    if s != [] {
      TotalSort(s[1..]);
      TotalInsert(s[0], Sort(PairLess, s[1..]));
    }
  }

  lemma {:induction false} PairLessIsStrictTotal()
    ensures StrictTotal(PairLess)
  {
    StringLessIsStrictTotal();
  }

  lemma {:induction false} SortedCountMembers(s: seq<(string, int)>)
    ensures forall x :: x in Sort(PairLess, s) <==> x in s
    ensures NoForbidden(Sort(PairLess, s)) <==> NoForbidden(s)
  {
    PairLessIsStrictTotal();
    SortIsSorted(PairLess, s);
    var t := Sort(PairLess, s);
    PermutationMembers(t, s);
    assert NoForbidden(t) <==> forall x :: x in t ==> !IsForbiddenCategory(x.0);
    assert NoForbidden(s) <==> forall x :: x in s ==> !IsForbiddenCategory(x.0);
  }

  method LoadBaseline(raw: RawBaseline, today: int) returns (r: Option<Baseline>)
    ensures r.Some? <==> BaselineOk(raw, today)
    ensures r.Some? ==> r.value == LoadedBaseline(raw)
  {
    if raw.fields != BASELINE_FIELDS || !IdOk(raw.id) { return None; }
    if !PolicyText(raw.image, false, 64, true) || raw.image !in IMAGES { return None; }
    if !ExpiryOk(raw.expiresOn, today) || !StatementOk(raw.statement) || raw.algorithm != ALGORITHM { return None; }
    if raw.findingCount <= 0 || raw.findingCount > MAXIMUM_BASELINE_LICENSES || !DigestOk(raw.digest) { return None; }
    var categories := PolicyCountMap(raw.categoryCounts, None);
    if categories.None? { return None; }
    var severities := PolicyCountMap(raw.severityCounts, Some(SEVERITIES));
    if severities.None? { return None; }
    TotalSort(Map(EntryCount, raw.categoryCounts));
    TotalSort(Map(EntryCount, raw.severityCounts));
    SortedCountMembers(Map(EntryCount, raw.categoryCounts));
    if Total(categories.value) != raw.findingCount || Total(severities.value) != raw.findingCount { return None; }
    if !NoForbidden(categories.value) { return None; }
    r := Some(Baseline(raw.id, raw.image, raw.expiresOn.value, raw.statement, raw.findingCount, raw.digest,
                       categories.value, severities.value));
  }

  /** Every record is acceptable, and no id and no match document is used twice. */
  ghost predicate DispositionsLoadable(raw: seq<RawDisposition>, schema: int, today: int)
  {
    && (forall i :: 0 <= i < |raw| ==> LoadDisposition(raw[i], schema, today).Some?)
    && (forall i, j :: 0 <= i < j < |raw| ==> raw[i].id != raw[j].id)
    && (forall i, j :: 0 <= i < j < |raw| ==> raw[i].exact != raw[j].exact)
  }

  ghost predicate DispositionsLoaded(raw: seq<RawDisposition>, schema: int, today: int, loaded: seq<Disposition>)
  {
    |loaded| == |raw| && forall i :: 0 <= i < |raw| ==> LoadDisposition(raw[i], schema, today) == Some(loaded[i])
  }

  lemma {:induction false} SameDocumentIffSameKey(a: RawDisposition, b: RawDisposition, schema: int, today: int)
    requires schema == 1 || schema == 2
    requires LoadDisposition(a, schema, today).Some? && LoadDisposition(b, schema, today).Some?
    ensures MatchKey(LoadDisposition(a, schema, today).value.exact) == MatchKey(LoadDisposition(b, schema, today).value.exact)
       <==> a.exact == b.exact
  {
    var f, g := ParsePolicyFinding(a.exact, schema).value, ParsePolicyFinding(b.exact, schema).value;
    ParseInvertsDocument(a.exact, schema, f);
    ParseInvertsDocument(b.exact, schema, g);
    MatchKeyInjective(f, g);
  }

  function Ids(raw: seq<RawDisposition>): set<string>
  {
    set d | d in raw :: d.id
  }

  function Keys(loaded: seq<Disposition>): set<seq<string>>
  {
    set d | d in loaded :: MatchKey(d.exact)
  }

  lemma {:induction false} LoadableSnoc(raw: seq<RawDisposition>, x: RawDisposition, schema: int, today: int)
    ensures DispositionsLoadable(raw + [x], schema, today) <==>
            && DispositionsLoadable(raw, schema, today) && LoadDisposition(x, schema, today).Some?
            && x.id !in Ids(raw) && forall d :: d in raw ==> d.exact != x.exact
  {
    var s := raw + [x];
    if DispositionsLoadable(s, schema, today) {
      assert s[|raw|] == x;
      forall i | 0 <= i < |raw| ensures LoadDisposition(raw[i], schema, today).Some? && raw[i].id != x.id && raw[i].exact != x.exact {
        assert s[i] == raw[i];
      }
      forall i, j | 0 <= i < j < |raw| ensures raw[i].id != raw[j].id && raw[i].exact != raw[j].exact {
        assert s[i] == raw[i] && s[j] == raw[j];
      }
    }
  }

  lemma {:induction false} LoadedSnoc(raw: seq<RawDisposition>, loaded: seq<Disposition>, x: RawDisposition, d: Disposition, schema: int, today: int)
    requires DispositionsLoaded(raw, schema, today, loaded) && LoadDisposition(x, schema, today) == Some(d)
    ensures DispositionsLoaded(raw + [x], schema, today, loaded + [d])
  {
  }

  /** The keys seen so far tell whether a match document is repeated. */
  lemma {:induction false} KeySeenIffDocumentSeen(raw: seq<RawDisposition>, loaded: seq<Disposition>, x: RawDisposition, d: Disposition, schema: int, today: int)
    requires (schema == 1 || schema == 2)
    requires DispositionsLoaded(raw, schema, today, loaded) && LoadDisposition(x, schema, today) == Some(d)
    ensures MatchKey(d.exact) in Keys(loaded) <==> exists e :: e in raw && e.exact == x.exact
  {
    forall i | 0 <= i < |raw| ensures MatchKey(loaded[i].exact) == MatchKey(d.exact) <==> raw[i].exact == x.exact {
      SameDocumentIffSameKey(raw[i], x, schema, today);
    }
    if e :| e in raw && e.exact == x.exact {
      var i :| 0 <= i < |raw| && raw[i] == e;
      assert loaded[i] in loaded;
    }
  }

  /** A list with an unloadable beginning is unloadable. */
  lemma {:induction false} LoadablePrefix(raw: seq<RawDisposition>, n: nat, schema: int, today: int)
    requires n <= |raw|
    ensures DispositionsLoadable(raw, schema, today) ==> DispositionsLoadable(raw[..n], schema, today)
  {
  }

  /** One record, against the ids and match keys seen before it. */
  method LoadNext(x: RawDisposition, seenIds: set<string>, seenMatches: set<seq<string>>, schema: int, today: int)
    returns (d: Option<Disposition>)
    ensures d.Some? <==> x.id !in seenIds && LoadDisposition(x, schema, today).Some?
                         && MatchKey(LoadDisposition(x, schema, today).value.exact) !in seenMatches
    ensures d.Some? ==> LoadDisposition(x, schema, today) == d
  {
    if x.id in seenIds {
      return None;
    }
    d := LoadDisposition(x, schema, today);
    if d.Some? && MatchKey(d.value.exact) in seenMatches {
      d := None;
    }
  }

  /** Whether the next record is accepted decides whether the list up to it is loadable. */
  lemma {:induction false} LoadStep(raw: seq<RawDisposition>, n: nat, loaded: seq<Disposition>, schema: int, today: int)
    requires n < |raw| && (schema == 1 || schema == 2)
    requires DispositionsLoadable(raw[..n], schema, today) && DispositionsLoaded(raw[..n], schema, today, loaded)
    ensures DispositionsLoadable(raw[..n + 1], schema, today) <==>
            && raw[n].id !in Ids(raw[..n]) && LoadDisposition(raw[n], schema, today).Some?
            && MatchKey(LoadDisposition(raw[n], schema, today).value.exact) !in Keys(loaded)
    ensures LoadDisposition(raw[n], schema, today).Some? ==>
              DispositionsLoaded(raw[..n + 1], schema, today, loaded + [LoadDisposition(raw[n], schema, today).value])
    ensures Ids(raw[..n + 1]) == Ids(raw[..n]) + {raw[n].id}
  {
    var x := raw[n];
    assert raw[..n + 1] == raw[..n] + [x];
    LoadableSnoc(raw[..n], x, schema, today);
    var d := LoadDisposition(x, schema, today);
    if d.Some? {
      KeySeenIffDocumentSeen(raw[..n], loaded, x, d.value, schema, today);
      LoadedSnoc(raw[..n], loaded, x, d.value, schema, today);
    }
  }

  lemma {:induction false} KeysSnoc(loaded: seq<Disposition>, d: Disposition)
    ensures Keys(loaded + [d]) == Keys(loaded) + {MatchKey(d.exact)}
  {
  }

  method LoadDispositions(raw: seq<RawDisposition>, schema: int, today: int)
    returns (r: Option<seq<Disposition>>, seenIds: set<string>)
    requires schema == 1 || schema == 2
    ensures r.Some? <==> DispositionsLoadable(raw, schema, today)
    ensures r.Some? ==> DispositionsLoaded(raw, schema, today, r.value) && seenIds == Ids(raw)
  {
    seenIds := {};
    var seenMatches: set<seq<string>> := {};
    var loaded: seq<Disposition> := [];
    for n := 0 to |raw|
      invariant DispositionsLoadable(raw[..n], schema, today) && DispositionsLoaded(raw[..n], schema, today, loaded)
      invariant seenIds == Ids(raw[..n]) && seenMatches == Keys(loaded)
    {
      LoadStep(raw, n, loaded, schema, today);
      LoadablePrefix(raw, n + 1, schema, today);
      var d := LoadNext(raw[n], seenIds, seenMatches, schema, today);
      if d.None? {
        return None, seenIds;
      }
      KeysSnoc(loaded, d.value);
      seenIds := seenIds + {raw[n].id};
      seenMatches := seenMatches + {MatchKey(d.value.exact)};
      loaded := loaded + [d.value];
    }
    assert raw[..|raw|] == raw;
    r := Some(loaded);
  }

  ghost predicate BaselinesLoadable(raw: seq<RawBaseline>, taken: set<string>, today: int)
  {
    && (forall i :: 0 <= i < |raw| ==> BaselineOk(raw[i], today) && raw[i].id !in taken)
    && (forall i, j :: 0 <= i < j < |raw| ==> raw[i].id != raw[j].id && raw[i].image != raw[j].image)
  }

  ghost predicate BaselinesLoaded(raw: seq<RawBaseline>, loaded: seq<Baseline>)
  {
    |loaded| == |raw| && forall i :: 0 <= i < |raw| ==> raw[i].expiresOn.Some? && loaded[i] == LoadedBaseline(raw[i])
  }

  function BaselineIds(raw: seq<RawBaseline>): set<string>
  {
    set b | b in raw :: b.id
  }

  function BaselineImages(raw: seq<RawBaseline>): set<string>
  {
    set b | b in raw :: b.image
  }

  lemma {:induction false} BaselinesSnoc(raw: seq<RawBaseline>, x: RawBaseline, taken: set<string>, today: int)
    ensures BaselinesLoadable(raw + [x], taken, today) <==>
            && BaselinesLoadable(raw, taken, today) && BaselineOk(x, today)
            && x.id !in taken + BaselineIds(raw) && x.image !in BaselineImages(raw)
  {
    var s := raw + [x];
    if BaselinesLoadable(s, taken, today) {
      assert s[|raw|] == x;
      forall i | 0 <= i < |raw| ensures BaselineOk(raw[i], today) && raw[i].id !in taken && raw[i].id != x.id && raw[i].image != x.image {
        assert s[i] == raw[i];
      }
      forall i, j | 0 <= i < j < |raw| ensures raw[i].id != raw[j].id && raw[i].image != raw[j].image {
        assert s[i] == raw[i] && s[j] == raw[j];
      }
    }
  }

  lemma {:induction false} BaselinesPrefix(raw: seq<RawBaseline>, n: nat, taken: set<string>, today: int)
    requires n <= |raw|
    ensures BaselinesLoadable(raw, taken, today) ==> BaselinesLoadable(raw[..n], taken, today)
  {
  }

  lemma {:induction false} BaselineStep(raw: seq<RawBaseline>, n: nat, loaded: seq<Baseline>, taken: set<string>, today: int)
    requires n < |raw| && BaselinesLoadable(raw[..n], taken, today) && BaselinesLoaded(raw[..n], loaded)
    ensures BaselinesLoadable(raw[..n + 1], taken, today) <==>
            BaselineOk(raw[n], today) && raw[n].id !in taken + BaselineIds(raw[..n]) && raw[n].image !in BaselineImages(raw[..n])
    ensures BaselineOk(raw[n], today) ==> BaselinesLoaded(raw[..n + 1], loaded + [LoadedBaseline(raw[n])])
    ensures BaselineIds(raw[..n + 1]) == BaselineIds(raw[..n]) + {raw[n].id}
    ensures BaselineImages(raw[..n + 1]) == BaselineImages(raw[..n]) + {raw[n].image}
  {
    assert raw[..n + 1] == raw[..n] + [raw[n]];
    BaselinesSnoc(raw[..n], raw[n], taken, today);
    if BaselineOk(raw[n], today) {
      BaselinesLoadedSnoc(raw[..n], loaded, raw[n]);
    }
  }

  lemma {:induction false} BaselinesLoadedSnoc(raw: seq<RawBaseline>, loaded: seq<Baseline>, x: RawBaseline)
    requires BaselinesLoaded(raw, loaded) && x.expiresOn.Some?
    ensures BaselinesLoaded(raw + [x], loaded + [LoadedBaseline(x)])
  {
  }

  method LoadBaselines(raw: seq<RawBaseline>, taken: set<string>, today: int) returns (r: Option<seq<Baseline>>)
    ensures r.Some? <==> BaselinesLoadable(raw, taken, today)
    ensures r.Some? ==> BaselinesLoaded(raw, r.value)
  {
    var seenIds, seenImages: set<string> := taken, {};
    var loaded: seq<Baseline> := [];
    for n := 0 to |raw|
      invariant BaselinesLoadable(raw[..n], taken, today) && BaselinesLoaded(raw[..n], loaded)
      invariant seenIds == taken + BaselineIds(raw[..n]) && seenImages == BaselineImages(raw[..n])
    {
      BaselineStep(raw, n, loaded, taken, today);
      BaselinesPrefix(raw, n + 1, taken, today);
      if raw[n].id in seenIds || raw[n].image in seenImages {
        return None;
      }
      var b := LoadBaseline(raw[n], today);
      if b.None? {
        return None;
      }
      seenIds := seenIds + {raw[n].id};
      seenImages := seenImages + {raw[n].image};
      loaded := loaded + [b.value];
    }
    assert raw[..|raw|] == raw;
    r := Some(loaded);
  }

  /** What evaluation may rely on. */
  ghost predicate WellFormed(p: Policy)
  {
    && (p.schema == 1 || p.schema == 2)
    && (p.schema == 1 ==> p.baselines == [])
    && (forall d :: d in p.dispositions ==> Expressible(d.exact) && OfSchema(d.exact, p.schema))
    && DistinctDispositions(p.dispositions)
    && DistinctBaselines(p.baselines)
    && (forall d, b :: d in p.dispositions && b in p.baselines ==> d.id != b.id)
    && (forall b :: b in p.baselines ==> BaselineBounded(b))
  }

  ghost predicate DistinctDispositions(ds: seq<Disposition>)
  {
    forall i, j :: 0 <= i < j < |ds| ==> ds[i].id != ds[j].id && ds[i].exact != ds[j].exact
  }

  ghost predicate DistinctBaselines(bs: seq<Baseline>)
  {
    forall i, j :: 0 <= i < j < |bs| ==> bs[i].id != bs[j].id && bs[i].image != bs[j].image
  }

  ghost predicate BaselineBounded(b: Baseline)
  {
    && b.image in IMAGES
    && NoForbidden(b.categoryCounts)
    && forall x :: x in b.severityCounts ==> x.0 in SEVERITIES
  }

  lemma {:induction false} LoadedBaselineBounded(raw: RawBaseline, today: int)
    requires BaselineOk(raw, today)
    ensures BaselineBounded(LoadedBaseline(raw))
  {
    SortedCountMembers(Map(EntryCount, raw.categoryCounts));
    SortedCountMembers(Map(EntryCount, raw.severityCounts));
    MapMembers(EntryCount, raw.severityCounts);
  }

  lemma {:induction false} LoadedDispositionExpressible(raw: RawDisposition, schema: int, today: int, d: Disposition)
    requires (schema == 1 || schema == 2) && LoadDisposition(raw, schema, today) == Some(d)
    ensures Expressible(d.exact) && OfSchema(d.exact, schema) && raw.exact == MatchDocument(d.exact) && raw.id == d.id
  {
    ParseInvertsDocument(raw.exact, schema, d.exact);
  }

  predicate SchemaOk(schema: Json, expected: Option<int>)
  {
    && (schema == Number(1) || schema == Number(2))
    && (expected.Some? ==> schema == Number(expected.value))
  }

  ghost predicate Loadable(doc: Document, expected: Option<int>, today: int)
  {
    && SchemaOk(doc.schema, expected)
    && doc.fields == (if doc.schema == Number(1) then POLICY_FIELDS else POLICY_FIELDS + {"license_baselines"})
    && doc.policyId.Text? && PolicyText(doc.policyId.text, false, 128, false)
    && |doc.dispositions| <= MAXIMUM_DISPOSITIONS && DispositionsLoadable(doc.dispositions, doc.schema.number, today)
    && (doc.schema == Number(2) ==>
          |doc.baselines| <= MAXIMUM_BASELINES && BaselinesLoadable(doc.baselines, Ids(doc.dispositions), today))
  }

  lemma {:induction false} LoadedDispositionsDistinct(raw: seq<RawDisposition>, schema: int, today: int, ds: seq<Disposition>)
    requires (schema == 1 || schema == 2) && DispositionsLoadable(raw, schema, today) && DispositionsLoaded(raw, schema, today, ds)
    ensures DistinctDispositions(ds)
    ensures forall d :: d in ds ==> Expressible(d.exact) && OfSchema(d.exact, schema)
    ensures forall d :: d in ds ==> d.id in Ids(raw)
  {
    forall i | 0 <= i < |raw|
      ensures Expressible(ds[i].exact) && OfSchema(ds[i].exact, schema) && raw[i].exact == MatchDocument(ds[i].exact) && raw[i].id == ds[i].id
    {
      LoadedDispositionExpressible(raw[i], schema, today, ds[i]);
    }
  }

  lemma {:induction false} LoadedBaselinesDistinct(raw: seq<RawBaseline>, taken: set<string>, today: int, bs: seq<Baseline>)
    requires BaselinesLoadable(raw, taken, today) && BaselinesLoaded(raw, bs)
    ensures DistinctBaselines(bs)
    ensures forall b :: b in bs ==> BaselineBounded(b) && b.id !in taken
  {
    forall i | 0 <= i < |bs| ensures BaselineBounded(bs[i]) && bs[i].id !in taken {
      LoadedBaselineBounded(raw[i], today);
    }
  }

  /** Accepts exactly the documents above; `expected` is the schema a caller may insist on. */
  method LoadPolicy(doc: Document, expected: Option<int>, today: int) returns (r: Option<Policy>)
    ensures r.Some? <==> Loadable(doc, expected, today)
    ensures r.Some? ==> doc.schema == Number(r.value.schema) && doc.policyId == Text(r.value.policyId) && WellFormed(r.value)
    ensures r.Some? ==> DispositionsLoaded(doc.dispositions, r.value.schema, today, r.value.dispositions)
    ensures r.Some? && r.value.schema == 2 ==> BaselinesLoaded(doc.baselines, r.value.baselines)
  {
    if !SchemaOk(doc.schema, expected) { return None; }
    var schema := doc.schema.number;
    if doc.fields != (if schema == 1 then POLICY_FIELDS else POLICY_FIELDS + {"license_baselines"}) { return None; }
    var policyId := PolicyString(doc.policyId, false, 128, false);
    PolicyStringMeaning(doc.policyId, false, 128, false, if doc.policyId.Text? then doc.policyId.text else "");
    if policyId.None? { return None; }
    if |doc.dispositions| > MAXIMUM_DISPOSITIONS { return None; }
    var ds, taken := LoadDispositions(doc.dispositions, schema, today);
    if ds.None? { return None; }
    LoadedDispositionsDistinct(doc.dispositions, schema, today, ds.value);
    if schema == 1 {
      return Some(Policy(schema, policyId.value, ds.value, []));
    }
    if |doc.baselines| > MAXIMUM_BASELINES { return None; }
    var bs := LoadBaselines(doc.baselines, taken, today);
    if bs.None? { return None; }
    LoadedBaselinesDistinct(doc.baselines, taken, today, bs.value);
    r := Some(Policy(schema, policyId.value, ds.value, bs.value));
  }
}
