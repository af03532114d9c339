/**
 * The lease that lets one workspace own the single quota-backed volume of an owner's PC
 * (infra/systemd/owner-pc-workspace-volume-gate.py).
 *
 * Every operation holds the file lock, so it is one atomic step. What Podman and XFS report are arguments;
 * a JSON member is missing (or null), of another type than the gate expects, or present.
 */
module VolumeGate {
  import opened Common
  import opened Permutations

  datatype GateError = BadIdentity | BadRecord | SeveralQuotas | NoLease | Mismatch | BadPhysical | HeldByOther | StillActive

  datatype Field<+T> = Missing | Wrong | Present(value: T)

  datatype Value = Str(text: string) | NotStr

  type Options = seq<(string, Value)>

  datatype Record = Record(
    name: Field<string>, options: Field<Options>, labels: Field<map<string, Value>>,
    driver: Field<string>, scope: Field<string>)

  // ----- Identities

  datatype Lease = Lease(workspaceId: string, workspaceName: string, volumeName: string)

  predicate IsHex(c: char) { '0' <= c <= '9' || 'a' <= c <= 'f' }

  predicate IsAlnum(c: char) { 'A' <= c <= 'Z' || 'a' <= c <= 'z' || '0' <= c <= '9' }

  predicate IsHyphenPlace(i: nat) { i == 8 || i == 13 || i == 18 || i == 23 }

  predicate IsUuid(s: string)
  {
    && |s| == 36
    && (forall i :: 0 <= i < 36 ==> if IsHyphenPlace(i) then s[i] == '-' else IsHex(s[i]))
    && (exists i :: 0 <= i < 36 && s[i] != '-' && s[i] != '0')
  }

  predicate IsWorkspaceName(s: string)
  {
    && 1 <= |s| <= 128 && IsAlnum(s[0]) && IsAlnum(s[|s| - 1])
    && forall i :: 0 <= i < |s| ==> IsAlnum(s[i]) || s[i] in "._-"
  }

  predicate IsVolumeName(s: string)
  {
    && 1 <= |s| <= 128 && IsAlnum(s[0])
    && forall i :: 0 <= i < |s| ==> IsAlnum(s[i]) || s[i] in "_.-"
  }

  const VOLUME_PREFIX: string := "cm-workspace-v2-"

  /** The identifier without its hyphens, cut to 24 digits. */
  function WorkspaceKey(id: string): string
    requires |id| == 36
  {
    id[..8] + id[9..13] + id[14..18] + id[19..23] + id[24..28]
  }

  function WorkspaceLease(id: string, name: string): Option<Lease>
  {
    if IsUuid(id) && IsWorkspaceName(name) then Some(Lease(id, name, VOLUME_PREFIX + WorkspaceKey(id))) else None
  }

  predicate ValidLease(l: Lease)
  {
    WorkspaceLease(l.workspaceId, l.workspaceName) == Some(l)
  }

  lemma {:induction false} CutAtHyphen(s: string, i: nat, j: nat)
    requires i < j <= |s| && s[i] == '-'
    ensures s[..j] == s[..i] + "-" + s[i + 1..j]
  {
    assert s[..j] == s[..i] + [s[i]] + s[i + 1..j];
  }

  lemma {:induction false} PrefixOfUuid(id: string)
    requires IsUuid(id)
    ensures id[..28] == id[..8] + "-" + id[9..13] + "-" + id[14..18] + "-" + id[19..23] + "-" + id[24..28]
  {
    assert id[8] == '-' && id[13] == '-' && id[18] == '-' && id[23] == '-';
    CutAtHyphen(id, 8, 13);
    CutAtHyphen(id, 13, 18);
    CutAtHyphen(id, 18, 23);
    CutAtHyphen(id, 23, 28);
  }

  lemma {:induction false} KeyOfPrefix(id: string, p: string)
    requires |id| == 36 && p == id[..28]
    ensures WorkspaceKey(id) == p[..8] + p[9..13] + p[14..18] + p[19..23] + p[24..28]
  {
  }

  lemma {:induction false} VolumeNameKey(l: Lease)
    requires ValidLease(l)
    ensures WorkspaceKey(l.workspaceId) == l.volumeName[|VOLUME_PREFIX|..] && l.volumeName == VOLUME_PREFIX + WorkspaceKey(l.workspaceId)
  {
  }

  /** Leases name one volume exactly when their identifiers share the first 28 characters. */
  lemma {:induction false} SameVolumeIff(l: Lease, m: Lease)
    requires ValidLease(l) && ValidLease(m)
    ensures l.volumeName == m.volumeName <==> l.workspaceId[..28] == m.workspaceId[..28]
  {
    var a, b := l.workspaceId, m.workspaceId;
    VolumeNameKey(l);
    VolumeNameKey(m);
    if l.volumeName == m.volumeName {
      KeyParts(a, b);
      PrefixOfUuid(a);
      PrefixOfUuid(b);
    }
    if a[..28] == b[..28] {
      KeyOfPrefix(a, a[..28]);
      KeyOfPrefix(b, a[..28]);
    }
  }

  lemma {:induction false} KeyParts(a: string, b: string)
    requires |a| == |b| == 36 && WorkspaceKey(a) == WorkspaceKey(b)
    ensures a[..8] == b[..8] && a[9..13] == b[9..13] && a[14..18] == b[14..18] && a[19..23] == b[19..23] && a[24..28] == b[24..28]
  {
    var x, y := WorkspaceKey(a), WorkspaceKey(b);
    assert a[..8] == x[..8] && a[9..13] == x[8..12] && a[14..18] == x[12..16] && a[19..23] == x[16..20] && a[24..28] == x[20..24];
    assert b[..8] == y[..8] && b[9..13] == y[8..12] && b[14..18] == y[12..16] && b[19..23] == y[16..20] && b[24..28] == y[20..24];
  }

  // ----- Quota options

  function LowerChar(c: char): char
  {
    if 'A' <= c <= 'Z' then (c as int + 32) as char else c
  }

  /** No letter outside A-Z lowers to a letter of the two quota names, so lowering the ASCII letters decides. */
  function Lower(s: string): string
  {
    Map(LowerChar, s)
  }

  predicate IsQuotaKey(k: string) { k == "size" || k == "inodes" }

  predicate IsDigit(c: char) { '0' <= c <= '9' }

  function DigitCount(s: string): nat
    ensures DigitCount(s) <= |s|
  {
    if s == [] || !IsDigit(s[0]) then 0 else 1 + DigitCount(s[1..])
  }

  predicate IsUnit(t: string)
  {
    || t == ""
    || (t[0] in "kKmMgGtTpPeE"
        && (|t| == 1 || (|t| == 2 && t[1] in "bB") || (|t| == 3 && t[1] in "iI" && t[2] in "bB")))
  }

  predicate IsSize(s: string)
  {
    s != "" && '1' <= s[0] <= '9' && IsUnit(s[DigitCount(s)..])
  }

  predicate IsInodes(s: string)
  {
    s != "" && '1' <= s[0] <= '9' && DigitCount(s) == |s|
  }

  type Quota = map<string, string>

  function AddQuotaOption(found: Quota, key: string, value: Value): Option<Quota>
  {
    if value.NotStr? || value.text == "" then None
    else if !(if key == "size" then IsSize(value.text) else IsInodes(value.text)) then None
    else if key in found then None
    else Some(found[key := value.text])
  }

  datatype Scan = Scan(found: Quota, other: Quota)

  function ScanEntry(so: Scan, e: (string, Value)): Option<Scan>
  {
    if !IsQuotaKey(Lower(e.0)) then Some(so)
    else if e.0 == "SIZE" || e.0 == "INODES" then
      var m := AddQuotaOption(so.other, Lower(e.0), e.1);
      if m.None? then None else Some(so.(other := m.value))
    else if e.0 != Lower(e.0) then None
    else
      var m := AddQuotaOption(so.found, e.0, e.1);
      if m.None? then None else Some(so.(found := m.value))
  }

  /** The named options: the canonical ones and the engine's upper-case mirrors. */
  function ScanEntries(es: Options): Option<Scan>
  {
    if es == [] then Some(Scan(map[], map[]))
    else
      var so := ScanEntries(es[..|es| - 1]);
      if so.None? then None else ScanEntry(so.value, es[|es| - 1])
  }

  function FindEquals(t: string): nat
    ensures FindEquals(t) <= |t|
  {
    if t == "" || t[0] == '=' then 0 else 1 + FindEquals(t[1..])
  }

  function TokenKey(t: string): string { t[..FindEquals(t)] }

  predicate HasEquals(t: string) { FindEquals(t) < |t| }

  function TokenValue(t: string): string
  {
    if HasEquals(t) then t[FindEquals(t) + 1..] else ""
  }

  function ScanToken(so: Scan, raw: string): Option<Scan>
  {
    var t := Strip(raw);
    if t == "" then None
    else if !IsQuotaKey(Lower(TokenKey(t))) then Some(so)
    else if TokenKey(t) != Lower(TokenKey(t)) || !HasEquals(t) || TokenValue(t) == "" then None
    else
      var m := AddQuotaOption(so.found, TokenKey(t), Str(TokenValue(t)));
      if m.None? then None else Some(Scan(m.value, so.other[TokenKey(t) := TokenValue(t)]))
  }

  /** The tokens of the mount option, added to what was found. */
  function ScanTokens(ts: seq<string>, found: Quota): Option<Scan>
  {
    if ts == [] then Some(Scan(found, map[]))
    else
      var so := ScanTokens(ts[..|ts| - 1], found);
      if so.None? then None else ScanToken(so.value, ts[|ts| - 1])
  }

  function FindComma(s: string): nat
    ensures FindComma(s) <= |s|
  {
    if s == "" || s[0] == ',' then 0 else 1 + FindComma(s[1..])
  }

  function Split(s: string): seq<string>
    decreases |s|
  {
    var i := FindComma(s);
    if i == |s| then [s] else [s[..i]] + Split(s[i + 1..])
  }

  function Lookup(es: Options, name: string): Option<Value>
  {
    if es == [] then None
    else if es[|es| - 1].0 == name then Some(es[|es| - 1].1)
    else Lookup(es[..|es| - 1], name)
  }

  function MountTokens(es: Options): Option<seq<string>>
  {
    match Lookup(es, "o")
    case None => Some([])
    case Some(NotStr) => None
    case Some(Str(text)) => Some(if text == "" then [] else Split(text))
  }

  function QuotaOf(es: Options): Option<Quota>
  {
    var named := ScanEntries(es);
    var tokens := MountTokens(es);
    if named.None? || tokens.None? then None
    else
      var all := ScanTokens(tokens.value, named.value.found);
      if all.None? then None
      else if named.value.other != map[] && (named.value.found != map[] || named.value.other != all.value.other) then None
      else Some(all.value.found)
  }

  function QuotaOptions(options: Field<Options>): Option<Quota>
  {
    match options
    case Missing => Some(map[])
    case Wrong => None
    case Present(es) => QuotaOf(es)
  }

  method ReadEntries(es: Options) returns (r: Option<Scan>)
    ensures r == ScanEntries(es)
  {
    var found: Quota, mirrors: Quota := map[], map[];
    for n := 0 to |es|
      invariant ScanEntries(es[..n]) == Some(Scan(found, mirrors))
    {
      assert es[..n + 1][..n] == es[..n];
      EntriesFail(es, n + 1);
      var key, value := es[n].0, es[n].1;
      if IsQuotaKey(Lower(key)) {
        if key == "SIZE" || key == "INODES" {
          var m := AddQuotaOption(mirrors, Lower(key), value);
          if m.None? { return None; }
          mirrors := m.value;
        } else if key != Lower(key) {
          return None;
        } else {
          var m := AddQuotaOption(found, key, value);
          if m.None? { return None; }
          found := m.value;
        }
      }
    }
    assert es[..|es|] == es;
    r := Some(Scan(found, mirrors));
  }

  method ReadTokens(ts: seq<string>, direct: Quota) returns (r: Option<Scan>)
    ensures r == ScanTokens(ts, direct)
  {
    var found: Quota, mount: Quota := direct, map[];
    for n := 0 to |ts|
      invariant ScanTokens(ts[..n], direct) == Some(Scan(found, mount))
    {
      assert ts[..n + 1][..n] == ts[..n];
      TokensFail(ts, direct, n + 1);
      var t := Strip(ts[n]);
      if t == "" { return None; }
      var key := TokenKey(t);
      if IsQuotaKey(Lower(key)) {
        if key != Lower(key) || !HasEquals(t) || TokenValue(t) == "" { return None; }
        var m := AddQuotaOption(found, key, Str(TokenValue(t)));
        if m.None? { return None; }
        found, mount := m.value, mount[key := TokenValue(t)];
      }
    }
    assert ts[..|ts|] == ts;
    r := Some(Scan(found, mount));
  }

  method ReadQuotaOptions(options: Field<Options>) returns (r: Option<Quota>)
    ensures r == QuotaOptions(options)
  {
    if options.Missing? { return Some(map[]); }
    if options.Wrong? { return None; }
    var es := options.value;
    var named := ReadEntries(es);
    if named.None? { return None; }
    var direct, mirrors := named.value.found, named.value.other;
    var tokens := MountTokens(es);
    if tokens.None? { return None; }
    var all := ReadTokens(tokens.value, direct);
    if all.None? { return None; }
    var found, mount := all.value.found, all.value.other;
    if mirrors != map[] && (direct != map[] || mirrors != mount) { return None; }
    r := Some(found);
  }

  lemma {:induction false} EntriesFail(es: Options, n: nat)
    requires n <= |es|
    ensures ScanEntries(es[..n]).None? ==> ScanEntries(es).None?
    decreases |es| - n
  {
    if n == |es| {
      assert es[..n] == es;
    } else {
      assert es[..n + 1][..n] == es[..n];
      EntriesFail(es, n + 1);
    }
  }

  lemma {:induction false} TokensFail(ts: seq<string>, found: Quota, n: nat)
    requires n <= |ts|
    ensures ScanTokens(ts[..n], found).None? ==> ScanTokens(ts, found).None?
    decreases |ts| - n
  {
    if n == |ts| {
      assert ts[..n] == ts;
    } else {
      assert ts[..n + 1][..n] == ts[..n];
      TokensFail(ts, found, n + 1);
    }
  }

  // ----- No declaration is hidden or contradicted

  /** An option or token that names a quota under `key`, in any case, is recorded with its value. */
  ghost predicate Agrees(m: Quota, key: string, value: Value)
  {
    IsQuotaKey(Lower(key)) ==> Lower(key) in m && value == Str(m[Lower(key)])
  }

  ghost predicate Extends(m: Quota, n: Quota)
  {
    forall k :: k in m ==> k in n && n[k] == m[k]
  }

  lemma {:induction false} EntriesAgree(es: Options, i: nat)
    requires i < |es| && ScanEntries(es).Some?
    ensures Agrees(ScanEntries(es).value.found, es[i].0, es[i].1) || Agrees(ScanEntries(es).value.other, es[i].0, es[i].1)
  {
    var front := es[..|es| - 1];
    if i < |es| - 1 {
      assert front[i] == es[i];
      EntriesAgree(front, i);
    }
  }

  lemma {:induction false} TokenStep(so: Scan, raw: string, next: Scan)
    requires ScanToken(so, raw) == Some(next) && Extends(so.other, so.found)
    ensures Extends(so.found, next.found) && Extends(next.other, next.found)
    ensures Agrees(next.found, TokenKey(Strip(raw)), Str(TokenValue(Strip(raw))))
  {
  }

  lemma {:induction false} TokensExtend(ts: seq<string>, found: Quota)
    requires ScanTokens(ts, found).Some?
    ensures Extends(found, ScanTokens(ts, found).value.found)
    ensures Extends(ScanTokens(ts, found).value.other, ScanTokens(ts, found).value.found)
  {
    if ts != [] {
      var front := ts[..|ts| - 1];
      TokensExtend(front, found);
      TokenStep(ScanTokens(front, found).value, ts[|ts| - 1], ScanTokens(ts, found).value);
    }
  }

  lemma {:induction false} TokensAgree(ts: seq<string>, found: Quota, i: nat)
    requires ScanTokens(ts, found).Some? && i < |ts|
    ensures Agrees(ScanTokens(ts, found).value.found, TokenKey(Strip(ts[i])), Str(TokenValue(Strip(ts[i]))))
  {
    var front := ts[..|ts| - 1];
    TokensExtend(front, found);
    TokenStep(ScanTokens(front, found).value, ts[|ts| - 1], ScanTokens(ts, found).value);
    if i < |front| {
      assert front[i] == ts[i];
      TokensAgree(front, found, i);
    }
  }

  /**
   * When the options are accepted, every option and every mount token that names a size or inode quota, in
   * whatever letter case, agrees with the result. So an empty result means that none is declared at all.
   */
  lemma {:induction false} DeclarationsAgree(es: Options, m: Quota)
    requires QuotaOf(es) == Some(m)
    ensures forall i :: 0 <= i < |es| ==> Agrees(m, es[i].0, es[i].1)
    ensures MountTokens(es).Some?
    ensures forall i :: 0 <= i < |MountTokens(es).value| ==>
              Agrees(m, TokenKey(Strip(MountTokens(es).value[i])), Str(TokenValue(Strip(MountTokens(es).value[i]))))
  {
    var named, tokens := ScanEntries(es).value, MountTokens(es).value;
    TokensExtend(tokens, named.found);
    forall i | 0 <= i < |tokens| ensures Agrees(m, TokenKey(Strip(tokens[i])), Str(TokenValue(Strip(tokens[i])))) {
      TokensAgree(tokens, named.found, i);
    }
    forall i | 0 <= i < |es| ensures Agrees(m, es[i].0, es[i].1) {
      EntriesAgree(es, i);
    }
  }

  // ----- Reading the Podman records

  predicate NameOk(r: Record) { r.name.Present? && IsVolumeName(r.name.value) }

  const ROLE_LABEL: string := "com.codex-mobile.volume-role"
  const WORKSPACE_DATA_ROLE: string := "workspace-data"

  function Labels(r: Record): map<string, Value>
  {
    if r.labels.Present? then r.labels.value else map[]
  }

  predicate LooksManaged(r: Record)
  {
    || (r.name.Present? && VOLUME_PREFIX <= r.name.value)
    || (ROLE_LABEL in Labels(r) && Labels(r)[ROLE_LABEL] == Str(WORKSPACE_DATA_ROLE))
  }

  predicate RecordOk(r: Record)
  {
    && NameOk(r) && QuotaOptions(r.options).Some? && !r.labels.Wrong?
    && (LooksManaged(r) ==> QuotaOptions(r.options).value != map[])
  }

  /** A volume with quota options. */
  predicate IsQuota(r: Record)
  {
    QuotaOptions(r.options).Some? && QuotaOptions(r.options).value != map[]
  }

  ghost predicate DistinctNames(rs: seq<Record>)
  {
    forall i, j :: 0 <= i < j < |rs| ==> rs[i].name != rs[j].name
  }

  ghost predicate RecordsOk(rs: seq<Record>)
  {
    (forall i :: 0 <= i < |rs| ==> RecordOk(rs[i])) && DistinctNames(rs)
  }

  function Names(rs: seq<Record>): set<Field<string>>
  {
    set r | r in rs :: r.name
  }

  lemma {:induction false} RecordsSnoc(rs: seq<Record>, r: Record)
    ensures RecordsOk(rs + [r]) <==> RecordsOk(rs) && RecordOk(r) && r.name !in Names(rs)
  {
    var s := rs + [r];
    if RecordsOk(s) {
      assert s[|rs|] == r;
      forall i | 0 <= i < |rs| ensures RecordOk(rs[i]) && rs[i].name != r.name { assert s[i] == rs[i]; }
      forall i, j | 0 <= i < j < |rs| ensures rs[i].name != rs[j].name { assert s[i] == rs[i] && s[j] == rs[j]; }
    }
  }

  lemma {:induction false} RecordsPrefix(rs: seq<Record>, n: nat)
    requires n <= |rs|
    ensures RecordsOk(rs) ==> RecordsOk(rs[..n])
  {
  }

  method CollectQuotas(rs: seq<Record>) returns (r: Option<seq<Record>>)
    ensures r.Some? <==> RecordsOk(rs)
    ensures r.Some? ==> r.value == Filter(IsQuota, rs)
  {
    var seen: set<Field<string>> := {};
    var quotas: seq<Record> := [];
    for n := 0 to |rs|
      invariant RecordsOk(rs[..n]) && seen == Names(rs[..n]) && quotas == Filter(IsQuota, rs[..n])
    {
      var x := rs[n];
      assert rs[..n + 1] == rs[..n] + [x];
      RecordsSnoc(rs[..n], x);
      RecordsPrefix(rs, n + 1);
      FilterSnoc(IsQuota, rs[..n], x);
      if !NameOk(x) || x.name in seen { return None; }
      seen := seen + {x.name};
      var options := ReadQuotaOptions(x.options);
      if options.None? || x.labels.Wrong? { return None; }
      if LooksManaged(x) && options.value == map[] { return None; }
      if options.value != map[] {
        quotas := quotas + [x];
      }
    }
    assert rs[..|rs|] == rs;
    r := Some(quotas);
  }

  // ----- The declared limits and labels

  const GIBIBYTE: nat := 1073741824
  const OWNER_INODE_LIMIT: nat := 1048576

  function Decimal(s: string): nat
    requires forall i :: 0 <= i < |s| ==> IsDigit(s[i])
  {
    if s == "" then 0
    else
      assert IsDigit(s[|s| - 1]);
      Decimal(s[..|s| - 1]) * 10 + (s[|s| - 1] as int - '0' as int)
  }

  /** A byte quota of 8 to 16 whole GiB, written in plain digits. */
  predicate SizeOk(size: string)
  {
    && IsInodes(size)
    && (DigitsAll(size); Decimal(size) % GIBIBYTE == 0 && 8 * GIBIBYTE <= Decimal(size) <= 16 * GIBIBYTE)
  }

  lemma {:induction false} DigitsAll(s: string)
    requires DigitCount(s) == |s|
    ensures forall i :: 0 <= i < |s| ==> IsDigit(s[i])
  {
    if s != "" {
      DigitsAll(s[1..]);
      assert s == [s[0]] + s[1..];
    }
  }

  function ExpectedLabels(l: Lease, size: string): map<string, Value>
  {
    map["com.codex-mobile.managed" := Str("true"),
        "com.codex-mobile.profile" := Str("owner_pc_beta"),
        ROLE_LABEL := Str(WORKSPACE_DATA_ROLE),
        "com.codex-mobile.workspace-id" := Str(l.workspaceId),
        "com.codex-mobile.workspace-name" := Str(l.workspaceName),
        "com.codex-mobile.cpu-millis" := Str("2000"),
        "com.codex-mobile.disk-budget" := Str(size),
        "com.codex-mobile.memory-mib" := Str("2048"),
        "com.codex-mobile.pids-limit" := Str("512")]
  }

  /** The one quota volume a lease allows. */
  predicate MatchesLease(l: Lease, r: Record)
  {
    && QuotaOptions(r.options).Some?
    && (var options := QuotaOptions(r.options).value;
        && options.Keys == {"size"} && SizeOk(options["size"])
        && Labels(r) == ExpectedLabels(l, options["size"]))
    && r.name == Present(l.volumeName) && r.driver == Present("local") && r.scope == Present("local")
  }

  // ----- Physical volumes

  datatype PhysicalVolume = PhysicalVolume(name: string, projectId: int)

  datatype PhysicalQuota = PhysicalQuota(blockSoftKib: int, blockHardKib: int, inodeSoft: int, inodeHard: int)

  /** What the host reports; `limits` is `None` where the quota of a project cannot be read. */
  datatype Host = Host(volumes: seq<PhysicalVolume>, limits: int -> Option<PhysicalQuota>)

  predicate PhysicalOk(v: PhysicalVolume)
  {
    IsVolumeName(v.name) && 0 <= v.projectId <= 0xFFFF_FFFF
  }

  predicate HasProject(v: PhysicalVolume) { v.projectId != 0 }

  ghost predicate VolumesOk(vs: seq<PhysicalVolume>)
  {
    && (forall i :: 0 <= i < |vs| ==> PhysicalOk(vs[i]))
    && (forall i, j :: 0 <= i < j < |vs| ==> vs[i].name != vs[j].name)
  }

  function VolumeNames(vs: seq<PhysicalVolume>): set<string>
  {
    set v | v in vs :: v.name
  }

  function SizeOf(r: Record): string
  {
    if QuotaOptions(r.options).Some? && "size" in QuotaOptions(r.options).value then QuotaOptions(r.options).value["size"] else ""
  }

  function LimitsFor(size: string): PhysicalQuota
    requires SizeOk(size)
  {
    DigitsAll(size);
    PhysicalQuota(Decimal(size) / 1024, Decimal(size) / 1024, OWNER_INODE_LIMIT, OWNER_INODE_LIMIT)
  }

  /** The physical check against at most one, already matched, quota record. */
  ghost predicate HostAgrees(host: Host, lease: Option<Lease>, quotas: seq<Record>)
    requires |quotas| <= 1 && (quotas != [] ==> lease.Some? && MatchesLease(lease.value, quotas[0]))
  {
    && VolumesOk(host.volumes)
    && (quotas == [] ==> forall v :: v in host.volumes ==> !HasProject(v))
    && (quotas != [] ==>
          exists v :: v in host.volumes && HasProject(v) && v.name == lease.value.volumeName
            && host.limits(v.projectId) == Some(LimitsFor(SizeOf(quotas[0])))
            && forall w :: w in host.volumes && HasProject(w) ==> w == v)
  }

  lemma {:induction false} VolumesSnoc(vs: seq<PhysicalVolume>, v: PhysicalVolume)
    ensures VolumesOk(vs + [v]) <==> VolumesOk(vs) && PhysicalOk(v) && v.name !in VolumeNames(vs)
  {
    var s := vs + [v];
    if VolumesOk(s) {
      assert s[|vs|] == v;
      forall i | 0 <= i < |vs| ensures PhysicalOk(vs[i]) && vs[i].name != v.name { assert s[i] == vs[i]; }
      forall i, j | 0 <= i < j < |vs| ensures vs[i].name != vs[j].name { assert s[i] == vs[i] && s[j] == vs[j]; }
    }
  }

  lemma {:induction false} VolumesPrefix(vs: seq<PhysicalVolume>, n: nat)
    requires n <= |vs|
    ensures VolumesOk(vs) ==> VolumesOk(vs[..n])
  {
  }

  /** The first `n` volumes, one more. */
  lemma {:induction false} VolumesNext(vs: seq<PhysicalVolume>, n: nat)
    requires n < |vs|
    ensures VolumesOk(vs[..n + 1]) <==> VolumesOk(vs[..n]) && PhysicalOk(vs[n]) && vs[n].name !in VolumeNames(vs[..n])
    ensures VolumeNames(vs[..n + 1]) == VolumeNames(vs[..n]) + {vs[n].name}
    ensures Filter(HasProject, vs[..n + 1]) == if HasProject(vs[n]) then Filter(HasProject, vs[..n]) + [vs[n]] else Filter(HasProject, vs[..n])
    ensures VolumesOk(vs) ==> VolumesOk(vs[..n + 1])
  {
    assert vs[..n + 1] == vs[..n] + [vs[n]];
    VolumesSnoc(vs[..n], vs[n]);
    VolumesPrefix(vs, n + 1);
    FilterSnoc(HasProject, vs[..n], vs[n]);
  }

  method ReadVolumes(vs: seq<PhysicalVolume>) returns (ok: bool, names: set<string>, nonzero: seq<PhysicalVolume>)
    ensures ok <==> VolumesOk(vs)
    ensures ok ==> names == VolumeNames(vs) && nonzero == Filter(HasProject, vs)
  {
    names, nonzero := {}, [];
    for n := 0 to |vs|
      invariant VolumesOk(vs[..n]) && names == VolumeNames(vs[..n]) && nonzero == Filter(HasProject, vs[..n])
    {
      VolumesNext(vs, n);
      if !PhysicalOk(vs[n]) || vs[n].name in names {
        return false, names, nonzero;
      }
      names := names + {vs[n].name};
      if vs[n].projectId != 0 {
        nonzero := nonzero + [vs[n]];
      }
    }
    assert vs[..|vs|] == vs;
    ok := true;
  }

  lemma {:induction false} ProjectsDistinct(vs: seq<PhysicalVolume>)
    requires VolumesOk(vs)
    ensures VolumesOk(Filter(HasProject, vs))
  {
    if vs != [] {
      var tail, v := vs[1..], vs[0];
      ProjectsDistinct(tail);
      FilterMembers(HasProject, tail);
      var rest := Filter(HasProject, tail);
      forall i | 0 <= i < |rest| ensures rest[i].name != v.name {
        assert rest[i] in tail;
      }
    }
  }

  lemma {:induction false} OneProject(vs: seq<PhysicalVolume>, v: PhysicalVolume)
    requires Filter(HasProject, vs) == [v]
    ensures forall w :: w in vs && HasProject(w) <==> w == v
  {
    FilterMembers(HasProject, vs);
    assert forall w :: w in [v] <==> w == v;
  }

  lemma {:induction false} TwoProjects(vs: seq<PhysicalVolume>)
    requires VolumesOk(vs) && |Filter(HasProject, vs)| > 1
    ensures exists v, w :: v in vs && w in vs && HasProject(v) && HasProject(w) && v != w
  {
    ProjectsDistinct(vs);
    FilterMembers(HasProject, vs);
    var a, b := Filter(HasProject, vs)[0], Filter(HasProject, vs)[1];
    assert a in Filter(HasProject, vs) && b in Filter(HasProject, vs) && a != b;
  }

  method FinishState(host: Host, lease: Option<Lease>, quotas: seq<Record>) returns (ok: bool)
    requires |quotas| <= 1 && (quotas != [] ==> lease.Some? && MatchesLease(lease.value, quotas[0]))
    ensures ok <==> HostAgrees(host, lease, quotas)
  {
    var read, names, nonzero := ReadVolumes(host.volumes);
    if !read { return false; }
    FilterMembers(HasProject, host.volumes);
    assert forall v :: v in host.volumes ==> v.name in names;
    if |nonzero| > 1 {
      TwoProjects(host.volumes);
      return false;
    }
    if quotas != [] && (quotas[0].name.Present? ==> quotas[0].name.value !in names) {
      return false;
    }
    if nonzero == [] {
      return quotas == [];
    }
    var v := nonzero[0];
    assert nonzero == [v];
    OneProject(host.volumes, v);
    assert v in host.volumes && HasProject(v);
    if lease.None? || quotas == [] || v.name != lease.value.volumeName {
      return false;
    }
    ok := host.limits(v.projectId) == Some(LimitsFor(SizeOf(quotas[0])));
  }

  // ----- Inspection

  datatype GateState = Idle | Claimed | Active

  datatype Status = Status(lease: Option<Lease>, volume: Option<string>, count: nat, state: GateState)

  /** Podman's records fit the lease. */
  ghost predicate Consistent(lease: Option<Lease>, rs: seq<Record>)
  {
    && RecordsOk(rs)
    && (var quotas := Filter(IsQuota, rs);
        || quotas == []
        || (|quotas| == 1 && lease.Some? && MatchesLease(lease.value, quotas[0])))
  }

  function StatusOf(lease: Option<Lease>, active: bool): Status
  {
    if lease.None? then Status(None, None, 0, Idle)
    else if !active then Status(lease, None, 0, Claimed)
    else Status(lease, Some(lease.value.volumeName), 1, Active)
  }

  method InspectLocked(lease: Option<Lease>, rs: seq<Record>, host: Option<Host>) returns (r: Result<Status, GateError>)
    ensures r.Ok? <==> Consistent(lease, rs) && (host.Some? ==> HostAgrees(host.value, lease, Filter(IsQuota, rs)))
    ensures r.Ok? ==> r.value == StatusOf(lease, Filter(IsQuota, rs) != [])
  {
    var collected := CollectQuotas(rs);
    if collected.None? { return Err(BadRecord); }
    var quotas := collected.value;
    if |quotas| > 1 { return Err(SeveralQuotas); }
    if quotas != [] {
      if lease.None? { return Err(NoLease); }
      if !MatchesLease(lease.value, quotas[0]) { return Err(Mismatch); }
    }
    if host.Some? {
      var ok := FinishState(host.value, lease, quotas);
      if !ok { return Err(BadPhysical); }
    }
    r := Ok(if lease.None? then Status(None, None, 0, Idle)
            else if quotas == [] then Status(lease, None, 0, Claimed)
            else Status(lease, Some(lease.value.volumeName), 1, Active));
  }

  /**
   * A passing verification: lease, Podman and XFS name one volume, with the declared limits, or none of them
   * names any.
   */
  lemma {:induction false} VerifiedAgreement(lease: Option<Lease>, rs: seq<Record>, host: Host)
    requires Consistent(lease, rs) && HostAgrees(host, lease, Filter(IsQuota, rs))
    ensures forall r :: r in rs && IsQuota(r) ==> lease.Some? && r.name == Present(lease.value.volumeName) && MatchesLease(lease.value, r)
    ensures forall v :: v in host.volumes && HasProject(v) ==> lease.Some? && v.name == lease.value.volumeName
    ensures (exists r :: r in rs && IsQuota(r)) <==> (exists v :: v in host.volumes && HasProject(v))
    ensures forall r, v :: r in rs && IsQuota(r) && v in host.volumes && HasProject(v) ==>
              && r.name == Present(v.name) && SizeOk(SizeOf(r)) && host.limits(v.projectId) == Some(LimitsFor(SizeOf(r)))
  {
    FilterMembers(IsQuota, rs);
    var quotas := Filter(IsQuota, rs);
    if quotas != [] {
      assert quotas == [quotas[0]];
      assert quotas[0] in quotas;
    }
  }

  // ----- Claim and release

  /** The first inspection lets this workspace have the lease. */
  ghost predicate Claimable(lease: Option<Lease>, l: Lease, rs: seq<Record>)
  {
    Consistent(lease, rs) && (lease.None? || lease == Some(l))
  }

  ghost predicate Releasable(lease: Option<Lease>, l: Lease, rs: seq<Record>)
  {
    Consistent(lease, rs) && lease == Some(l) && Filter(IsQuota, rs) == []
  }

  class Gate {
    var lease: Option<Lease>

    constructor ()
      ensures lease == None
    {
      lease := None;
    }

    /**
     * Takes the lease if it is free or already this workspace's, and nothing else. Podman is read again after
     * the lease was written: a failure then leaves the lease behind.
     */
    method Claim(id: string, name: string, rs: seq<Record>, again: seq<Record>) returns (r: Result<Status, GateError>)
      modifies this
      ensures WorkspaceLease(id, name).None? ==> r == Err(BadIdentity) && lease == old(lease)
      ensures WorkspaceLease(id, name).Some? ==>
                var l := WorkspaceLease(id, name).value;
                && lease == (if Claimable(old(lease), l, rs) then Some(l) else old(lease))
                && (r.Ok? <==> Claimable(old(lease), l, rs) && (old(lease).None? ==> Consistent(Some(l), again)))
                && (r.Ok? ==> r.value == StatusOf(lease, Filter(IsQuota, if old(lease).None? then again else rs) != []))
    {
      var expected := WorkspaceLease(id, name);
      if expected.None? { return Err(BadIdentity); }
      r := InspectLocked(lease, rs, None);
      if r.Err? { return; }
      if lease.Some? {
        if lease.value != expected.value { return Err(HeldByOther); }
        return;
      }
      lease := expected;
      r := InspectLocked(lease, again, None);
    }

    /** Gives the lease up only for its holder and only once the quota volume is gone; then reads Podman again. */
    method Release(id: string, name: string, rs: seq<Record>, again: seq<Record>) returns (r: Result<Status, GateError>)
      modifies this
      ensures WorkspaceLease(id, name).None? ==> r == Err(BadIdentity) && lease == old(lease)
      ensures WorkspaceLease(id, name).Some? ==>
                var l := WorkspaceLease(id, name).value;
                && lease == (if Releasable(old(lease), l, rs) then None else old(lease))
                && (r.Ok? <==> Releasable(old(lease), l, rs) && Consistent(None, again))
                && (r.Ok? ==> r.value == StatusOf(None, false))
    {
      var expected := WorkspaceLease(id, name);
      if expected.None? { return Err(BadIdentity); }
      r := InspectLocked(lease, rs, None);
      if r.Err? { return; }
      if lease.None? { return Err(NoLease); }
      if lease.value != expected.value { return Err(HeldByOther); }
      if r.value.count != 0 { return Err(StillActive); }
      lease := None;
      r := InspectLocked(None, again, None);
    }
  }

  // ----- Every run

  /** A gate operation that has changed the lease and has not yet read Podman again. */
  datatype Busy = Claiming(l: Lease) | Releasing(l: Lease)

  /** The lease file, the workspaces whose claim succeeded and was not released since, and Podman's records. */
  datatype System = System(lease: Option<Lease>, claims: set<Lease>, records: seq<Record>, busy: Option<Busy>)

  datatype Event =
    | ClaimStarts(l: Lease)
    | ClaimEnds
    | ReleaseStarts(l: Lease)
    | ReleaseEnds
    | Create(l: Lease, record: Record)
    | Delete(l: Lease)
    | AddPlain(record: Record)
    | RemovePlain(index: nat)

  function KeepOthers(l: Lease): Record -> bool
  {
    (r: Record) => r.name != Present(l.volumeName)
  }

  /** A volume that is nobody's workspace volume. */
  predicate Plain(r: Record) { RecordOk(r) && !IsQuota(r) }

  /**
   * The lock lets one gate operation run at a time; Podman may change during it. A workspace that holds a claim,
   * and nobody else, creates and deletes the volume of its own name, with whatever options and labels.
   */
  ghost predicate Step(s: System, e: Event, t: System)
  {
    match e
    case ClaimStarts(l) =>
      && s.busy.None? && ValidLease(l)
      && t == if !Claimable(s.lease, l, s.records) then s
              else if s.lease.Some? then s.(claims := s.claims + {l})
              else s.(lease := Some(l), busy := Some(Claiming(l)))
    case ClaimEnds =>
      && s.busy.Some? && s.busy.value.Claiming?
      && t == s.(busy := None, claims := if Consistent(s.lease, s.records) then s.claims + {s.busy.value.l} else s.claims)
    case ReleaseStarts(l) =>
      && s.busy.None? && ValidLease(l)
      && t == if !Releasable(s.lease, l, s.records) then s
              else s.(lease := None, claims := s.claims - {l}, busy := Some(Releasing(l)))
    case ReleaseEnds => s.busy.Some? && s.busy.value.Releasing? && t == s.(busy := None)
    case Create(l, r) =>
      l in s.claims && r.name == Present(l.volumeName) && r.name !in Names(s.records) && t == s.(records := s.records + [r])
    case Delete(l) =>
      l in s.claims && t == s.(records := Filter(KeepOthers(l), s.records))
    case AddPlain(r) =>
      Plain(r) && r.name !in Names(s.records) && t == s.(records := s.records + [r])
    case RemovePlain(i) =>
      i < |s.records| && Plain(s.records[i]) && t == s.(records := s.records[..i] + s.records[i + 1..])
  }

  ghost predicate AllPlain(rs: seq<Record>)
  {
    forall r :: r in rs ==> Plain(r)
  }

  /** Every volume is plain or the one the lease names. */
  ghost predicate Owned(lease: Option<Lease>, rs: seq<Record>)
  {
    forall r :: r in rs ==> Plain(r) || (lease.Some? && r.name == Present(lease.value.volumeName))
  }

  ghost predicate Inv(s: System)
  {
    && DistinctNames(s.records) && Owned(s.lease, s.records)
    && (forall l :: l in s.claims ==> s.lease == Some(l))
    && (s.busy.Some? ==> s.claims == {} && AllPlain(s.records))
    && (s.busy.Some? && s.busy.value.Claiming? ==> s.lease == Some(s.busy.value.l))
    && (s.busy.Some? && s.busy.value.Releasing? ==> s.lease.None?)
  }

  lemma {:induction false} NoQuotasIsPlain(rs: seq<Record>)
    requires RecordsOk(rs) && Filter(IsQuota, rs) == []
    ensures AllPlain(rs)
  {
    FilterMembers(IsQuota, rs);
  }

  lemma {:induction false} PlainIsConsistent(lease: Option<Lease>, rs: seq<Record>)
    requires AllPlain(rs) && DistinctNames(rs)
    ensures Consistent(lease, rs) && Filter(IsQuota, rs) == []
  {
    assert forall i :: 0 <= i < |rs| ==> rs[i] in rs;
    FilterMembers(IsQuota, rs);
    if Filter(IsQuota, rs) != [] {
      HasRecord(Filter(IsQuota, rs));
    }
  }

  lemma {:induction false} HasRecord(rs: seq<Record>)
    requires rs != []
    ensures exists r :: r in rs
  {
    assert rs[0] in rs;
  }

  lemma {:induction false} NamesSnoc(rs: seq<Record>, r: Record)
    requires DistinctNames(rs) && r.name !in Names(rs)
    ensures DistinctNames(rs + [r])
  {
  }

  lemma {:induction false} NamesFiltered(p: Record -> bool, rs: seq<Record>)
    requires DistinctNames(rs)
    ensures DistinctNames(Filter(p, rs))
  {
    if rs != [] {
      NamesFiltered(p, rs[1..]);
      FilterMembers(p, rs[1..]);
      var rest := Filter(p, rs[1..]);
      forall x | x in rest ensures x.name != rs[0].name {
        assert x in rs[1..];
      }
    }
  }

  lemma {:induction false} NamesWithout(rs: seq<Record>, i: nat)
    requires DistinctNames(rs) && i < |rs|
    ensures DistinctNames(rs[..i] + rs[i + 1..])
    ensures forall r :: r in rs[..i] + rs[i + 1..] ==> r in rs
  {
    var t := rs[..i] + rs[i + 1..];
    forall a | 0 <= a < |t| ensures t[a] == rs[if a < i then a else a + 1] {}
  }

  lemma {:induction false} GateStep(s: System, e: Event, t: System)
    requires Inv(s) && Step(s, e, t) && (e.ClaimStarts? || e.ReleaseStarts? || e.ClaimEnds? || e.ReleaseEnds?)
    ensures Inv(t)
  {
    if e.ClaimStarts? && s.lease.None? && Claimable(s.lease, e.l, s.records) {
      NoQuotasIsPlain(s.records);
    } else if e.ReleaseStarts? && Releasable(s.lease, e.l, s.records) {
      NoQuotasIsPlain(s.records);
      assert s.claims - {e.l} == {};
    }
  }

  lemma {:induction false} VolumeStep(s: System, e: Event, t: System)
    requires Inv(s) && Step(s, e, t) && (e.Create? || e.Delete? || e.AddPlain? || e.RemovePlain?)
    ensures Inv(t)
  {
    match e
    case Create(l, r) => NamesSnoc(s.records, r);
    case Delete(l) =>
      NamesFiltered(KeepOthers(l), s.records);
      FilterMembers(KeepOthers(l), s.records);
    case AddPlain(r) => NamesSnoc(s.records, r);
    case RemovePlain(i) => NamesWithout(s.records, i);
  }

  lemma {:induction false} StepInv(s: System, e: Event, t: System)
    requires Inv(s) && Step(s, e, t)
    ensures Inv(t)
  {
    if e.Create? || e.Delete? || e.AddPlain? || e.RemovePlain? {
      VolumeStep(s, e, t);
    } else {
      GateStep(s, e, t);
    }
  }

  ghost predicate IsRun(run: seq<System>, events: seq<Event>)
  {
    && |run| == |events| + 1
    && run[0] == System(None, {}, [], None)
    && forall i :: 0 <= i < |events| ==> Step(run[i], events[i], run[i + 1])
  }

  lemma {:induction false} RunInv(run: seq<System>, events: seq<Event>, i: nat)
    requires IsRun(run, events) && i < |run|
    ensures Inv(run[i])
  {
    if i > 0 {
      RunInv(run, events, i - 1);
      assert Step(run[i - 1], events[i - 1], run[i - 1 + 1]);
      StepInv(run[i - 1], events[i - 1], run[i]);
    }
  }

  lemma {:induction false} SoleVolume(lease: Option<Lease>, rs: seq<Record>)
    requires DistinctNames(rs) && Owned(lease, rs)
    ensures forall a, b :: 0 <= a < b < |rs| ==> Plain(rs[a]) || Plain(rs[b])
  {
    forall a, b | 0 <= a < b < |rs| ensures Plain(rs[a]) || Plain(rs[b]) {
      assert rs[a] in rs && rs[b] in rs && rs[a].name != rs[b].name;
    }
  }

  /**
   * In every reachable state two workspaces never both hold a claim; at most one volume is a workspace volume or
   * has a quota, whatever its creator gave it; and it exists only under the lease that names it.
   */
  lemma {:induction false} GateSafety(run: seq<System>, events: seq<Event>, i: nat)
    requires IsRun(run, events) && i < |run|
    ensures forall l, m :: l in run[i].claims && m in run[i].claims ==> l == m
    ensures forall a, b :: 0 <= a < b < |run[i].records| ==> Plain(run[i].records[a]) || Plain(run[i].records[b])
    ensures forall r :: r in run[i].records && !Plain(r) ==> run[i].lease.Some? && r.name == Present(run[i].lease.value.volumeName)
    ensures forall r :: r in run[i].records && IsQuota(r) ==> !Plain(r)
  {
    RunInv(run, events, i);
    SoleVolume(run[i].lease, run[i].records);
  }

  /** No claim or release fails at its second reading of Podman: what it wrote is what it reports. */
  lemma {:induction false} SecondReadingPasses(run: seq<System>, events: seq<Event>, i: nat)
    requires IsRun(run, events) && i < |run| && run[i].busy.Some?
    ensures Consistent(run[i].lease, run[i].records) && Filter(IsQuota, run[i].records) == []
  {
    RunInv(run, events, i);
    PlainIsConsistent(run[i].lease, run[i].records);
  }

  lemma {:induction false} ConsistentIff(lease: Option<Lease>, rs: seq<Record>)
    requires DistinctNames(rs) && Owned(lease, rs)
    ensures Consistent(lease, rs) <==> forall r :: r in rs && !Plain(r) ==> RecordOk(r) && MatchesLease(lease.value, r)
  {
    FilterMembers(IsQuota, rs);
    var quotas := Filter(IsQuota, rs);
    if forall r :: r in rs && !Plain(r) ==> RecordOk(r) && MatchesLease(lease.value, r) {
      NamesFiltered(IsQuota, rs);
      assert forall r :: r in quotas ==> r in rs && !Plain(r) && r.name == Present(lease.value.volumeName);
      AtMostOne(quotas);
      if quotas != [] {
        assert quotas[0] in quotas;
      }
    } else if Consistent(lease, rs) {
      ConsistentMatches(lease, rs);
    }
  }

  lemma {:induction false} AtMostOne(rs: seq<Record>)
    requires DistinctNames(rs) && forall r, q :: r in rs && q in rs ==> r.name == q.name
    ensures |rs| <= 1
  {
    if |rs| > 1 {
      TwoNames(rs);
    }
  }

  lemma {:induction false} TwoNames(rs: seq<Record>)
    requires DistinctNames(rs) && |rs| > 1
    ensures exists r, q :: r in rs && q in rs && r.name != q.name
  {
    assert rs[0] in rs && rs[1] in rs && rs[0].name != rs[1].name;
  }

  lemma {:induction false} ConsistentMatches(lease: Option<Lease>, rs: seq<Record>)
    requires Consistent(lease, rs)
    ensures forall r :: r in rs && !Plain(r) ==> RecordOk(r) && lease.Some? && MatchesLease(lease.value, r)
  {
    FilterMembers(IsQuota, rs);
    var quotas := Filter(IsQuota, rs);
    forall r | r in rs && !Plain(r) ensures RecordOk(r) && lease.Some? && MatchesLease(lease.value, r) {
      assert r in quotas;
      assert r == quotas[0];
    }
  }

  /**
   * In every reachable state inspection passes exactly when the workspace volume, if there is one, matches its
   * lease, and then reports exactly what is there.
   */
  lemma {:induction false} StatusIsExact(run: seq<System>, events: seq<Event>, i: nat)
    requires IsRun(run, events) && i < |run|
    ensures var s := run[i];
            Consistent(s.lease, s.records) <==>
            forall r :: r in s.records && !Plain(r) ==> s.lease.Some? && RecordOk(r) && MatchesLease(s.lease.value, r)
    ensures Consistent(run[i].lease, run[i].records) ==>
              var s, st := run[i], StatusOf(run[i].lease, Filter(IsQuota, run[i].records) != []);
              && (st.state == Idle <==> s.lease.None?)
              && (st.state == Active <==> exists r :: r in s.records && IsQuota(r))
              && (st.state == Claimed <==> s.lease.Some? && forall r :: r in s.records ==> !IsQuota(r))
  {
    RunInv(run, events, i);
    ConsistentIff(run[i].lease, run[i].records);
    if Consistent(run[i].lease, run[i].records) {
      QuotaPresence(run[i].lease, run[i].records);
    }
  }

  lemma {:induction false} QuotaPresence(lease: Option<Lease>, rs: seq<Record>)
    requires Consistent(lease, rs)
    ensures Filter(IsQuota, rs) != [] <==> exists r :: r in rs && IsQuota(r)
    ensures lease.None? ==> Filter(IsQuota, rs) == []
  {
    FilterMembers(IsQuota, rs);
    var quotas := Filter(IsQuota, rs);
    if quotas != [] {
      assert quotas[0] in quotas;
    }
  }

  /** A lease ends only by its holder's release, and only when no workspace volume is left. */
  lemma {:induction false} LeaseEndsByRelease(run: seq<System>, events: seq<Event>, i: nat)
    requires IsRun(run, events) && i < |events| && run[i].lease.Some? && run[i + 1].lease != run[i].lease
    ensures events[i] == ReleaseStarts(run[i].lease.value) && run[i + 1].lease.None?
    ensures run[i + 1].claims == {} && AllPlain(run[i + 1].records)
  {
    RunInv(run, events, i);
    assert Step(run[i], events[i], run[i + 1]);
    LeaseEnds(run[i], events[i], run[i + 1]);
  }

  lemma {:induction false} LeaseEnds(s: System, e: Event, t: System)
    requires Inv(s) && Step(s, e, t) && s.lease.Some? && t.lease != s.lease
    ensures e == ReleaseStarts(s.lease.value) && t.lease.None? && t.claims == {} && AllPlain(t.records)
  {
    StepInv(s, e, t);
    assert t.busy.Some?;
  }

  // ----- The volume a holder may create exists

  const EIGHT_GIB: string := "8589934592"

  lemma {:induction false} CountAll(s: string)
    requires forall i :: 0 <= i < |s| ==> IsDigit(s[i])
    ensures DigitCount(s) == |s|
  {
    if s != "" {
      CountAll(s[1..]);
    }
  }

  lemma {:induction false} DecimalSnoc(s: string, n: nat)
    requires n < |s| && forall i :: 0 <= i < |s| ==> IsDigit(s[i])
    ensures Decimal(s[..n + 1]) == Decimal(s[..n]) * 10 + (s[n] as int - '0' as int)
  {
    assert s[..n + 1][..n] == s[..n];
  }

  lemma {:induction false} EightGibPrefix()
    ensures forall i :: 0 <= i < |EIGHT_GIB| ==> IsDigit(EIGHT_GIB[i])
    ensures Decimal(EIGHT_GIB[..5]) == 85899
  {
    var s := EIGHT_GIB;
    DecimalSnoc(s, 0);
    DecimalSnoc(s, 1);
    DecimalSnoc(s, 2);
    DecimalSnoc(s, 3);
    DecimalSnoc(s, 4);
  }

  lemma {:induction false} EightGibValue()
    ensures forall i :: 0 <= i < |EIGHT_GIB| ==> IsDigit(EIGHT_GIB[i])
    ensures Decimal(EIGHT_GIB) == 8 * GIBIBYTE
  {
    var s := EIGHT_GIB;
    EightGibPrefix();
    DecimalSnoc(s, 5);
    DecimalSnoc(s, 6);
    DecimalSnoc(s, 7);
    DecimalSnoc(s, 8);
    DecimalSnoc(s, 9);
    assert s[..10] == s;
  }

  lemma {:induction false} EightGibOk()
    ensures IsSize(EIGHT_GIB) && SizeOk(EIGHT_GIB)
  {
    EightGibValue();
    CountAll(EIGHT_GIB);
    assert EIGHT_GIB[10..] == "";
  }

  lemma {:induction false} SizeOnly(size: string)
    requires IsSize(size)
    ensures QuotaOf([("size", Str(size))]) == Some(map["size" := size])
  {
    var es: Options := [("size", Str(size))];
    assert es[..0] == [];
    assert Lower("size") == "size" by {
      assert "size"[1..] == "ize" && "ize"[1..] == "ze" && "ze"[1..] == "e" && "e"[1..] == "";
    }
    assert ScanEntries(es[..0]) == Some(Scan(map[], map[]));
    assert ScanEntries(es) == ScanEntry(Scan(map[], map[]), es[0]);
    assert Lookup(es[..0], "o").None?;
  }

  lemma {:induction false} VolumeNameOk(l: Lease)
    requires ValidLease(l)
    ensures IsVolumeName(l.volumeName)
  {
    VolumeNameKey(l);
    var k := WorkspaceKey(l.workspaceId);
    assert forall i :: 0 <= i < |k| ==> IsHex(k[i]);
  }

  function EightGibRecord(l: Lease): Record
  {
    Record(Present(l.volumeName), Present([("size", Str(EIGHT_GIB))]), Present(ExpectedLabels(l, EIGHT_GIB)),
           Present("local"), Present("local"))
  }

  lemma {:induction false} EightGibOptions(l: Lease)
    ensures QuotaOptions(EightGibRecord(l).options) == Some(map["size" := EIGHT_GIB]) && SizeOk(EIGHT_GIB)
  {
    EightGibOk();
    SizeOnly(EIGHT_GIB);
  }

  /** Every lease has a volume that its holder may create. */
  lemma {:induction false} HolderCanCreate(l: Lease) returns (r: Record)
    requires ValidLease(l)
    ensures MatchesLease(l, r) && RecordOk(r)
  {
    r := EightGibRecord(l);
    EightGibOptions(l);
    VolumeNameOk(l);
    assert "size" in QuotaOptions(r.options).value;
  }
}
