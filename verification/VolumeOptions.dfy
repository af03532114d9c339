/**
  When the quota options of a volume are accepted, and with which result: an exact condition on the options and the
  mount tokens themselves, and the records that the container engine reports.
 */
module VolumeOptions {
  import opened Common
  import opened Permutations
  import opened VolumeGate

  predicate IsMirror(name: string) { name == "SIZE" || name == "INODES" }

  /** The engine's spelling of a quota option. */
  function Upper(key: string): string { if key == "size" then "SIZE" else "INODES" }

  predicate ValidFor(key: string, text: string) { if key == "size" then IsSize(text) else IsInodes(text) }

  predicate NamesQuota(name: string) { IsQuotaKey(Lower(name)) }

  /** An option that names a quota does so in one of the two spellings, with a valid value. */
  predicate EntryOk(e: (string, Value))
  {
    NamesQuota(e.0) ==> (IsQuotaKey(e.0) || IsMirror(e.0)) && e.1.Str? && ValidFor(Lower(e.0), e.1.text)
  }

  ghost predicate Named(es: Options, name: string)
  {
    exists i :: 0 <= i < |es| && es[i].0 == name
  }

  ghost predicate EntriesOk(es: Options)
  {
    && (forall i :: 0 <= i < |es| ==> EntryOk(es[i]))
    && forall i, j :: 0 <= i < j < |es| && NamesQuota(es[i].0) ==> es[i].0 != es[j].0
  }

  /** A mount token is not blank, and one that names a quota is written in lower case, with a valid value. */
  predicate TokenOk(raw: string)
  {
    var t := Strip(raw);
    t != "" && (NamesQuota(TokenKey(t)) ==> IsQuotaKey(TokenKey(t)) && HasEquals(t) && ValidFor(TokenKey(t), TokenValue(t)))
  }

  ghost predicate TokenNamed(ts: seq<string>, key: string)
  {
    exists i :: 0 <= i < |ts| && TokenKey(Strip(ts[i])) == key
  }

  ghost predicate TokensOk(ts: seq<string>)
  {
    && (forall i :: 0 <= i < |ts| ==> TokenOk(ts[i]))
    && forall i, j :: 0 <= i < j < |ts| && NamesQuota(TokenKey(Strip(ts[i]))) ==> TokenKey(Strip(ts[i])) != TokenKey(Strip(ts[j]))
  }

  /** Some token says `key=value`. */
  ghost predicate Mounts(ts: seq<string>, key: string, value: string)
  {
    exists i :: 0 <= i < |ts| && TokenKey(Strip(ts[i])) == key && TokenValue(Strip(ts[i])) == value
  }

  /** Some option says this. */
  predicate Entry(es: Options, name: string, value: string) { (name, Str(value)) in es }

  ghost predicate DirectAre(es: Options, m: Quota)
  {
    && (forall k :: k in m ==> IsQuotaKey(k) && Entry(es, k, m[k]))
    && (forall k, v :: IsQuotaKey(k) && Entry(es, k, v) ==> k in m && m[k] == v)
  }

  ghost predicate MirrorsAre(es: Options, m: Quota)
  {
    && (forall k :: k in m ==> IsQuotaKey(k) && Entry(es, Upper(k), m[k]))
    && (forall k, v :: IsQuotaKey(k) && Entry(es, Upper(k), v) ==> k in m && m[k] == v)
  }

  ghost predicate MountsAre(ts: seq<string>, m: Quota)
  {
    && (forall k :: k in m ==> IsQuotaKey(k) && Mounts(ts, k, m[k]))
    && (forall k, v :: IsQuotaKey(k) && Mounts(ts, k, v) ==> k in m && m[k] == v)
  }

  lemma {:induction false} LowerNames()
    ensures Lower("size") == "size" && Lower("inodes") == "inodes" && Lower("SIZE") == "size" && Lower("INODES") == "inodes"
  {
  }

  // ----- The named options

  lemma {:induction false} EntriesSnoc(front: Options, e: (string, Value))
    ensures EntriesOk(front + [e]) <==>
            EntriesOk(front) && EntryOk(e) && (NamesQuota(e.0) ==> !Named(front, e.0))
  {
    var es := front + [e];
    assert es[|front|] == e;
    if EntriesOk(es) {
      forall i | 0 <= i < |front| ensures EntryOk(front[i]) && (NamesQuota(e.0) ==> front[i].0 != e.0) {
        assert es[i] == front[i];
      }
      forall i, j | 0 <= i < j < |front| && NamesQuota(front[i].0) ensures front[i].0 != front[j].0 {
        assert es[i] == front[i] && es[j] == front[j];
      }
    }
  }

  lemma {:induction false} NamedValue(es: Options, name: string)
    requires EntriesOk(es) && NamesQuota(name)
    ensures Named(es, name) <==> exists v :: Entry(es, name, v)
  {
    if Named(es, name) {
      var i :| 0 <= i < |es| && es[i].0 == name;
      assert EntryOk(es[i]);
      assert es[i] == (name, Str(es[i].1.text)) && Entry(es, name, es[i].1.text);
    }
    if v :| Entry(es, name, v) {
      var i :| 0 <= i < |es| && es[i] == (name, Str(v));
      assert es[i].0 == name;
    }
  }

  lemma {:induction false} DirectNamed(es: Options, m: Quota, key: string)
    requires EntriesOk(es) && DirectAre(es, m) && IsQuotaKey(key)
    ensures key in m <==> Named(es, key)
  {
    LowerNames();
    NamedValue(es, key);
    if key in m {
      assert Entry(es, key, m[key]);
    }
    if v :| Entry(es, key, v) {
      assert m[key] == v;
    }
  }

  lemma {:induction false} MirrorNamed(es: Options, m: Quota, key: string)
    requires EntriesOk(es) && MirrorsAre(es, m) && IsQuotaKey(key)
    ensures key in m <==> Named(es, Upper(key))
  {
    LowerNames();
    NamedValue(es, Upper(key));
    if key in m {
      assert Entry(es, Upper(key), m[key]);
    }
    if v :| Entry(es, Upper(key), v) {
      assert m[key] == v;
    }
  }

  lemma {:induction false} DirectGrow(front: Options, e: (string, Value), m: Quota, n: Quota)
    requires DirectAre(front, m) && (IsQuotaKey(e.0) ==> e.1.Str? && e.0 !in m)
    requires n == if IsQuotaKey(e.0) then m[e.0 := e.1.text] else m
    ensures DirectAre(front + [e], n)
  {
    forall k | k in n ensures IsQuotaKey(k) && Entry(front + [e], k, n[k]) {
      EntrySnoc(front, e, k, n[k]);
    }
    forall k, v | IsQuotaKey(k) && Entry(front + [e], k, v) ensures k in n && n[k] == v {
      EntrySnoc(front, e, k, v);
    }
  }

  lemma {:induction false} UpperLower(name: string, k: string)
    requires IsQuotaKey(k)
    ensures Upper(k) == name <==> IsMirror(name) && Lower(name) == k
  {
    LowerNames();
  }

  lemma {:induction false} EntrySnoc(front: Options, e: (string, Value), name: string, value: string)
    ensures Entry(front + [e], name, value) <==> Entry(front, name, value) || e == (name, Str(value))
  {
  }

  lemma {:induction false} MirrorsGrow(front: Options, e: (string, Value), m: Quota, n: Quota)
    requires MirrorsAre(front, m) && (IsMirror(e.0) ==> e.1.Str? && Lower(e.0) !in m)
    requires n == if IsMirror(e.0) then m[Lower(e.0) := e.1.text] else m
    ensures MirrorsAre(front + [e], n)
  {
    if IsMirror(e.0) {
      MirrorIsQuota(e.0);
    }
    forall k | k in n ensures IsQuotaKey(k) && Entry(front + [e], Upper(k), n[k]) {
      EntrySnoc(front, e, Upper(k), n[k]);
      if k !in m {
        UpperLower(e.0, k);
      }
    }
    forall k, v | IsQuotaKey(k) && Entry(front + [e], Upper(k), v) ensures k in n && n[k] == v {
      EntrySnoc(front, e, Upper(k), v);
      UpperLower(e.0, k);
    }
  }

  lemma {:induction false} MirrorIsQuota(name: string)
    requires IsMirror(name)
    ensures IsQuotaKey(Lower(name))
  {
    LowerNames();
  }

  lemma {:induction false} EntryAccepted(so: Scan, e: (string, Value))
    ensures ScanEntry(so, e).Some? <==>
            EntryOk(e) && (IsQuotaKey(e.0) ==> e.0 !in so.found) && (IsMirror(e.0) ==> Lower(e.0) !in so.other)
  {
    LowerNames();
  }

  lemma {:induction false} QuotaNames(name: string)
    ensures IsQuotaKey(name) || IsMirror(name) ==> NamesQuota(name)
    ensures IsMirror(name) ==> !IsQuotaKey(name) && Upper(Lower(name)) == name
  {
    LowerNames();
  }

  /** One option: it is accepted exactly when it is well-formed and new. */
  lemma {:induction false} EntryIff(front: Options, so: Scan, e: (string, Value))
    requires EntriesOk(front) && DirectAre(front, so.found) && MirrorsAre(front, so.other)
    ensures ScanEntry(so, e).Some? <==> EntryOk(e) && (NamesQuota(e.0) ==> !Named(front, e.0))
  {
    EntryAccepted(so, e);
    QuotaNames(e.0);
    if IsQuotaKey(e.0) {
      DirectNamed(front, so.found, e.0);
    } else if IsMirror(e.0) {
      MirrorNamed(front, so.other, Lower(e.0));
    }
  }

  lemma {:induction false} EntryAdds(so: Scan, e: (string, Value), next: Scan)
    requires ScanEntry(so, e) == Some(next)
    ensures IsQuotaKey(e.0) ==> e.1.Str? && e.0 !in so.found && next == so.(found := so.found[e.0 := e.1.text])
    ensures IsMirror(e.0) ==> e.1.Str? && Lower(e.0) !in so.other && next == so.(other := so.other[Lower(e.0) := e.1.text])
    ensures !IsQuotaKey(e.0) && !IsMirror(e.0) ==> next == so
  {
    LowerNames();
  }

  lemma {:induction false} EntryGives(front: Options, so: Scan, e: (string, Value), next: Scan)
    requires DirectAre(front, so.found) && MirrorsAre(front, so.other) && ScanEntry(so, e) == Some(next)
    ensures DirectAre(front + [e], next.found) && MirrorsAre(front + [e], next.other)
  {
    EntryAdds(so, e, next);
    DirectGrow(front, e, so.found, next.found);
    MirrorsGrow(front, e, so.other, next.other);
  }

  lemma {:induction false} EntriesIff(es: Options)
    ensures ScanEntries(es).Some? <==> EntriesOk(es)
    ensures ScanEntries(es).Some? ==> DirectAre(es, ScanEntries(es).value.found) && MirrorsAre(es, ScanEntries(es).value.other)
  {
    if es != [] {
      var front, e := es[..|es| - 1], es[|es| - 1];
      assert es == front + [e];
      EntriesIff(front);
      EntriesSnoc(front, e);
      if ScanEntries(front).Some? {
        var so := ScanEntries(front).value;
        EntryIff(front, so, e);
        if ScanEntry(so, e).Some? {
          EntryGives(front, so, e, ScanEntry(so, e).value);
        }
      }
    }
  }

  // ----- The mount tokens

  lemma {:induction false} TokensSnoc(front: seq<string>, raw: string)
    ensures TokensOk(front + [raw]) <==>
            TokensOk(front) && TokenOk(raw) && (NamesQuota(TokenKey(Strip(raw))) ==> !TokenNamed(front, TokenKey(Strip(raw))))
  {
    var ts, key := front + [raw], TokenKey(Strip(raw));
    assert ts[|front|] == raw;
    if TokensOk(ts) {
      forall i | 0 <= i < |front| ensures TokenOk(front[i]) && (NamesQuota(key) ==> TokenKey(Strip(front[i])) != key) {
        assert ts[i] == front[i];
      }
      forall i, j | 0 <= i < j < |front| && NamesQuota(TokenKey(Strip(front[i])))
        ensures TokenKey(Strip(front[i])) != TokenKey(Strip(front[j]))
      {
        assert ts[i] == front[i] && ts[j] == front[j];
      }
    }
  }

  /** What the tokens add to the options named before, and what they say by themselves. */
  ghost predicate TokensGive(ts: seq<string>, direct: Quota, so: Scan)
  {
    MountsAre(ts, so.other) && Covers(direct, so)
  }

  ghost predicate Covers(direct: Quota, so: Scan)
  {
    && so.found.Keys == direct.Keys + so.other.Keys
    && (forall k :: k in direct ==> so.found[k] == direct[k])
    && (forall k :: k in so.other ==> so.found[k] == so.other[k])
  }

  ghost predicate Clashes(ts: seq<string>, direct: Quota)
  {
    exists k :: k in direct && TokenNamed(ts, k)
  }

  lemma {:induction false} MountNamed(ts: seq<string>, m: Quota, key: string)
    requires MountsAre(ts, m) && IsQuotaKey(key)
    ensures key in m <==> TokenNamed(ts, key)
  {
    if key in m {
      assert Mounts(ts, key, m[key]);
    }
    if i :| 0 <= i < |ts| && TokenKey(Strip(ts[i])) == key {
      assert Mounts(ts, key, TokenValue(Strip(ts[i])));
      assert m[key] == TokenValue(Strip(ts[i]));
    }
  }

  lemma {:induction false} MountsSnoc(front: seq<string>, raw: string, k: string, v: string)
    ensures Mounts(front + [raw], k, v) <==>
            Mounts(front, k, v) || (TokenKey(Strip(raw)) == k && TokenValue(Strip(raw)) == v)
  {
    var ts := front + [raw];
    assert ts[|front|] == raw;
    if Mounts(front, k, v) {
      var i :| 0 <= i < |front| && TokenKey(Strip(front[i])) == k && TokenValue(Strip(front[i])) == v;
      assert ts[i] == front[i];
    }
    if Mounts(ts, k, v) {
      var i :| 0 <= i < |ts| && TokenKey(Strip(ts[i])) == k && TokenValue(Strip(ts[i])) == v;
      assert i < |front| ==> ts[i] == front[i];
    }
  }

  lemma {:induction false} MountsGrow(front: seq<string>, raw: string, m: Quota, n: Quota)
    requires MountsAre(front, m) && (IsQuotaKey(TokenKey(Strip(raw))) ==> TokenKey(Strip(raw)) !in m)
    requires n == if IsQuotaKey(TokenKey(Strip(raw))) then m[TokenKey(Strip(raw)) := TokenValue(Strip(raw))] else m
    ensures MountsAre(front + [raw], n)
  {
    forall k | k in n ensures IsQuotaKey(k) && Mounts(front + [raw], k, n[k]) {
      MountsSnoc(front, raw, k, n[k]);
    }
    forall k, v | IsQuotaKey(k) && Mounts(front + [raw], k, v) ensures k in n && n[k] == v {
      MountsSnoc(front, raw, k, v);
    }
  }

  lemma {:induction false} TokenAccepted(so: Scan, raw: string)
    ensures ScanToken(so, raw).Some? <==>
            TokenOk(raw) && (NamesQuota(TokenKey(Strip(raw))) ==> TokenKey(Strip(raw)) !in so.found)
  {
    LowerNames();
  }

  /** One token: it is accepted exactly when it is well-formed and its key is new. */
  lemma {:induction false} TokenIff(front: seq<string>, direct: Quota, so: Scan, raw: string)
    requires MountsAre(front, so.other) && Covers(direct, so)
    ensures ScanToken(so, raw).Some? <==>
            && TokenOk(raw)
            && (NamesQuota(TokenKey(Strip(raw))) ==> TokenKey(Strip(raw)) !in direct && !TokenNamed(front, TokenKey(Strip(raw))))
  {
    TokenAccepted(so, raw);
    if TokenOk(raw) && NamesQuota(TokenKey(Strip(raw))) {
      MountNamed(front, so.other, TokenKey(Strip(raw)));
    }
  }

  lemma {:induction false} TokenAdds(so: Scan, raw: string, next: Scan)
    requires ScanToken(so, raw) == Some(next)
    ensures var key, value := TokenKey(Strip(raw)), TokenValue(Strip(raw));
            && (IsQuotaKey(key) ==> key !in so.found && next == Scan(so.found[key := value], so.other[key := value]))
            && (!IsQuotaKey(key) ==> next == so)
  {
    LowerNames();
  }

  lemma {:induction false} CoversMore(direct: Quota, so: Scan, key: string, value: string)
    requires Covers(direct, so) && key !in so.found
    ensures Covers(direct, Scan(so.found[key := value], so.other[key := value]))
  {
  }

  lemma {:induction false} TokenGives(front: seq<string>, direct: Quota, so: Scan, raw: string, next: Scan)
    requires TokensGive(front, direct, so) && ScanToken(so, raw) == Some(next)
    ensures TokensGive(front + [raw], direct, next)
  {
    TokenAdds(so, raw, next);
    if IsQuotaKey(TokenKey(Strip(raw))) {
      CoversMore(direct, so, TokenKey(Strip(raw)), TokenValue(Strip(raw)));
    }
    MountsGrow(front, raw, so.other, next.other);
  }

  lemma {:induction false} ClashesSnoc(front: seq<string>, raw: string, direct: Quota)
    ensures Clashes(front + [raw], direct) <==> Clashes(front, direct) || TokenKey(Strip(raw)) in direct
  {
    var ts := front + [raw];
    assert ts[|front|] == raw;
    if Clashes(front, direct) {
      var k :| k in direct && TokenNamed(front, k);
      var i :| 0 <= i < |front| && TokenKey(Strip(front[i])) == k;
      assert ts[i] == front[i] && TokenNamed(ts, k);
    }
    if TokenKey(Strip(raw)) in direct {
      assert TokenNamed(ts, TokenKey(Strip(raw)));
    }
    if Clashes(ts, direct) {
      var k :| k in direct && TokenNamed(ts, k);
      var i :| 0 <= i < |ts| && TokenKey(Strip(ts[i])) == k;
      assert i < |front| ==> TokenNamed(front, k) by { assert i < |front| ==> ts[i] == front[i]; }
    }
  }

  ghost predicate QuotaKeys(m: Quota)
  {
    forall k :: k in m ==> IsQuotaKey(k)
  }

  lemma {:induction false} TokensIff(ts: seq<string>, direct: Quota)
    requires QuotaKeys(direct)
    ensures ScanTokens(ts, direct).Some? <==> TokensOk(ts) && !Clashes(ts, direct)
    ensures ScanTokens(ts, direct).Some? ==> TokensGive(ts, direct, ScanTokens(ts, direct).value)
  {
    if ts != [] {
      var front, raw := ts[..|ts| - 1], ts[|ts| - 1];
      assert ts == front + [raw];
      TokensIff(front, direct);
      TokensSnoc(front, raw);
      ClashesSnoc(front, raw, direct);
      LowerNames();
      if ScanTokens(front, direct).Some? {
        var so := ScanTokens(front, direct).value;
        TokenIff(front, direct, so, raw);
        if ScanToken(so, raw).Some? {
          TokenGives(front, direct, so, raw, ScanToken(so, raw).value);
        }
      }
    }
  }

  // ----- The exact condition

  /**
    Well-formed options and tokens, no quota named both directly and by a token, and engine mirrors, if any, that
    stand alone and say exactly what the tokens say.
   */
  ghost predicate Acceptable(es: Options, ts: seq<string>)
  {
    && EntriesOk(es) && TokensOk(ts)
    && (forall k :: IsQuotaKey(k) && Named(es, k) ==> !TokenNamed(ts, k))
    && ((exists k :: IsQuotaKey(k) && Named(es, Upper(k))) ==>
          && (forall k :: IsQuotaKey(k) ==> !Named(es, k))
          && MirrorsRepeat(es, ts))
  }

  ghost predicate MirrorsRepeat(es: Options, ts: seq<string>)
  {
    forall k, v :: IsQuotaKey(k) ==> (Entry(es, Upper(k), v) <==> Mounts(ts, k, v))
  }

  /** The result holds what is named directly and what the tokens say. */
  ghost predicate IsResult(es: Options, ts: seq<string>, m: Quota)
  {
    && (forall k :: k in m ==> IsQuotaKey(k) && (Entry(es, k, m[k]) || Mounts(ts, k, m[k])))
    && (forall k, v :: IsQuotaKey(k) && Entry(es, k, v) ==> k in m && m[k] == v)
    && (forall k, v :: IsQuotaKey(k) && Mounts(ts, k, v) ==> k in m && m[k] == v)
  }

  lemma {:induction false} ClashIff(es: Options, ts: seq<string>, direct: Quota)
    requires EntriesOk(es) && DirectAre(es, direct)
    ensures Clashes(ts, direct) <==> exists k :: IsQuotaKey(k) && Named(es, k) && TokenNamed(ts, k)
  {
    DirectKeys(es, direct);
    forall k | IsQuotaKey(k) ensures k in direct <==> Named(es, k) {
      DirectNamed(es, direct, k);
    }
  }

  lemma {:induction false} EqualRepeat(es: Options, ts: seq<string>, m: Quota)
    requires MirrorsAre(es, m) && MountsAre(ts, m)
    ensures MirrorsRepeat(es, ts)
  {
  }

  lemma {:induction false} RepeatEqual(es: Options, ts: seq<string>, mirrors: Quota, mount: Quota)
    requires MirrorsAre(es, mirrors) && MountsAre(ts, mount) && MirrorsRepeat(es, ts)
    ensures mirrors == mount
  {
    forall k | k in mirrors ensures k in mount && mount[k] == mirrors[k] {
      assert Entry(es, Upper(k), mirrors[k]);
      assert Mounts(ts, k, mirrors[k]);
    }
    forall k | k in mount ensures k in mirrors {
      assert Mounts(ts, k, mount[k]);
      assert Entry(es, Upper(k), mount[k]);
    }
  }

  lemma {:induction false} MirrorsIff(es: Options, ts: seq<string>, mirrors: Quota, mount: Quota)
    requires MirrorsAre(es, mirrors) && MountsAre(ts, mount)
    ensures mirrors == mount <==> MirrorsRepeat(es, ts)
  {
    if mirrors == mount {
      EqualRepeat(es, ts, mount);
    } else if MirrorsRepeat(es, ts) {
      RepeatEqual(es, ts, mirrors, mount);
    }
  }

  lemma {:induction false} EmptyIff(es: Options, direct: Quota, mirrors: Quota)
    requires EntriesOk(es) && DirectAre(es, direct) && MirrorsAre(es, mirrors)
    ensures direct == map[] <==> forall k :: IsQuotaKey(k) ==> !Named(es, k)
    ensures mirrors != map[] <==> exists k :: IsQuotaKey(k) && Named(es, Upper(k))
  {
    forall k | IsQuotaKey(k) ensures (k in direct <==> Named(es, k)) && (k in mirrors <==> Named(es, Upper(k))) {
      DirectNamed(es, direct, k);
      MirrorNamed(es, mirrors, k);
    }
    DirectKeys(es, direct);
    if k :| k in mirrors {
      assert Entry(es, Upper(k), mirrors[k]);
    }
  }

  lemma {:induction false} DirectKeys(es: Options, direct: Quota)
    requires DirectAre(es, direct)
    ensures QuotaKeys(direct)
  {
    forall k | k in direct ensures IsQuotaKey(k) {
      assert Entry(es, k, direct[k]);
    }
  }

  lemma {:induction false} AcceptableIff(es: Options, ts: seq<string>)
    requires MountTokens(es) == Some(ts)
    ensures QuotaOf(es).Some? <==> Acceptable(es, ts)
  {
    EntriesIff(es);
    if EntriesOk(es) {
      var direct, mirrors := ScanEntries(es).value.found, ScanEntries(es).value.other;
      DirectKeys(es, direct);
      TokensIff(ts, direct);
      ClashIff(es, ts, direct);
      EmptyIff(es, direct, mirrors);
      if ScanTokens(ts, direct).Some? {
        MirrorsIff(es, ts, mirrors, ScanTokens(ts, direct).value.other);
      }
    }
  }

  lemma {:induction false} GivenIsResult(es: Options, ts: seq<string>, direct: Quota, mount: Quota, m: Quota)
    requires DirectAre(es, direct) && MountsAre(ts, mount) && direct.Keys !! mount.Keys
    requires m.Keys == direct.Keys + mount.Keys
    requires (forall k :: k in direct ==> m[k] == direct[k]) && (forall k :: k in mount ==> m[k] == mount[k])
    ensures IsResult(es, ts, m)
  {
  }

  lemma {:induction false} NoClashDisjoint(ts: seq<string>, direct: Quota, mount: Quota)
    requires MountsAre(ts, mount) && QuotaKeys(direct) && !Clashes(ts, direct)
    ensures direct.Keys !! mount.Keys
  {
    forall k | k in direct ensures k !in mount {
      MountNamed(ts, mount, k);
    }
  }

  lemma {:induction false} AcceptedResult(es: Options, ts: seq<string>)
    requires MountTokens(es) == Some(ts) && QuotaOf(es).Some?
    ensures IsResult(es, ts, QuotaOf(es).value)
  {
    EntriesIff(es);
    var direct := ScanEntries(es).value.found;
    DirectKeys(es, direct);
    TokensIff(ts, direct);
    var so := ScanTokens(ts, direct).value;
    NoClashDisjoint(ts, direct, so.other);
    GivenIsResult(es, ts, direct, so.other, so.found);
  }

  lemma {:induction false} ResultUnique(es: Options, ts: seq<string>, m: Quota, n: Quota)
    requires IsResult(es, ts, m) && IsResult(es, ts, n)
    ensures m == n
  {
    forall k | k in m ensures k in n && n[k] == m[k] {
      assert Entry(es, k, m[k]) || Mounts(ts, k, m[k]);
    }
    forall k | k in n ensures k in m {
      assert Entry(es, k, n[k]) || Mounts(ts, k, n[k]);
    }
  }

  /** Options are accepted, and with this result, exactly under the condition above on the options and tokens themselves. */
  lemma {:induction false} AcceptedIff(es: Options, m: Quota)
    ensures QuotaOf(es) == Some(m) <==>
            MountTokens(es).Some? && Acceptable(es, MountTokens(es).value) && IsResult(es, MountTokens(es).value, m)
  {
    if MountTokens(es).Some? {
      var ts := MountTokens(es).value;
      AcceptableIff(es, ts);
      if QuotaOf(es).Some? {
        AcceptedResult(es, ts);
        if IsResult(es, ts, m) {
          ResultUnique(es, ts, m, QuotaOf(es).value);
        }
      }
    }
  }

  // ----- What a size is

  const PREFIXES: string := "kKmMgGtTpPeE"

  const SUFFIXES: set<string> := {"", "b", "B", "ib", "iB", "Ib", "IB"}

  ghost predicate Digits(d: string)
  {
    forall i :: 0 <= i < |d| ==> IsDigit(d[i])
  }

  /** A number without leading zero, and perhaps a unit. */
  ghost predicate Sized(s: string, digits: string, unit: string)
  {
    && s == digits + unit && digits != "" && digits[0] != '0' && Digits(digits)
    && (unit == "" || (unit[0] in PREFIXES && unit[1..] in SUFFIXES))
  }

  lemma {:induction false} CountDigits(d: string, rest: string)
    requires Digits(d) && (rest == "" || !IsDigit(rest[0]))
    ensures DigitCount(d + rest) == |d|
  {
    if d == "" {
      assert d + rest == rest;
    } else {
      assert (d + rest)[1..] == d[1..] + rest;
      CountDigits(d[1..], rest);
    }
  }

  lemma {:induction false} CountedAreDigits(s: string)
    ensures Digits(s[..DigitCount(s)]) && (DigitCount(s) < |s| ==> !IsDigit(s[DigitCount(s)]))
  {
    if s != "" && IsDigit(s[0]) {
      CountedAreDigits(s[1..]);
      assert s[..DigitCount(s)] == [s[0]] + s[1..][..DigitCount(s[1..])];
    }
  }

  lemma {:induction false} UnitIff(t: string)
    ensures IsUnit(t) <==> t == "" || (t[0] in PREFIXES && t[1..] in SUFFIXES)
  {
    if t != "" {
      var u := t[1..];
      assert |t| == 2 ==> u == [t[1]];
      assert |t| == 3 ==> u == [t[1], t[2]];
      assert |u| == 1 ==> (u in SUFFIXES <==> u[0] in "bB");
      assert |u| == 2 ==> (u in SUFFIXES <==> u[0] in "iI" && u[1] in "bB");
    }
  }

  lemma {:induction false} UnitStart(t: string)
    requires t != "" && t[0] in PREFIXES
    ensures !IsDigit(t[0])
  {
  }

  /** The accepted sizes are the numbers without leading zero, with or without a unit. */
  lemma {:induction false} IsSizeIff(s: string)
    ensures IsSize(s) <==> exists digits, unit :: Sized(s, digits, unit)
  {
    var n := DigitCount(s);
    CountedAreDigits(s);
    UnitIff(s[n..]);
    if IsSize(s) {
      assert s == s[..n] + s[n..];
      assert Sized(s, s[..n], s[n..]);
    }
    if digits, unit :| Sized(s, digits, unit) {
      if unit != "" {
        UnitStart(unit);
      }
      CountDigits(digits, unit);
      assert s[|digits|..] == unit && s[0] == digits[0] && IsDigit(digits[0]);
    }
  }

  /** How a number is written in plain digits. */
  function Numeral(n: nat): string
  {
    (if n < 10 then "" else Numeral(n / 10)) + [('0' as int + n % 10) as char]
  }

  lemma {:induction false} NumeralIs(n: nat)
    ensures Numeral(n) != "" && Digits(Numeral(n)) && (n > 0 ==> Numeral(n)[0] != '0') && Decimal(Numeral(n)) == n
  {
    var s := Numeral(n);
    if n >= 10 {
      NumeralIs(n / 10);
      assert s[..|s| - 1] == Numeral(n / 10);
    } else {
      assert s[..|s| - 1] == "";
    }
  }

  lemma {:induction false} DecimalIs(s: string)
    requires s != "" && Digits(s) && s[0] != '0'
    ensures Decimal(s) > 0 && Numeral(Decimal(s)) == s
  {
    var front, last := s[..|s| - 1], s[|s| - 1];
    assert s == front + [last] && IsDigit(last);
    if front != "" {
      assert front[0] == s[0];
      DecimalIs(front);
      assert Decimal(s) / 10 == Decimal(front) && Decimal(s) % 10 == last as int - '0' as int;
    }
  }

  /** The sizes a workspace may have are 8 to 16 whole gibibytes, written in plain digits and nothing else. */
  lemma {:induction false} SizeOkIff(size: string)
    ensures SizeOk(size) <==> exists k: nat :: 8 <= k <= 16 && size == Numeral(k * 1073741824)
  {
    if SizeOk(size) {
      DigitsAll(size);
      DecimalIs(size);
      var k := Decimal(size) / 1073741824;
      assert Decimal(size) == k * 1073741824;
    }
    if k: nat :| 8 <= k <= 16 && size == Numeral(k * 1073741824) {
      NumeralIs(k * 1073741824);
      CountAll(size);
    }
  }

  // ----- The options that the container engine reports

  predicate AllAlnum(s: string)
  {
    forall i :: 0 <= i < |s| ==> IsAlnum(s[i])
  }

  lemma {:induction false} SizeChars(s: string)
    requires IsSize(s)
    ensures AllAlnum(s)
  {
    var n := DigitCount(s);
    CountedAreDigits(s);
    var u := s[n..];
    assert AllAlnum(u);
    forall i | 0 <= i < |s| ensures IsAlnum(s[i]) {
      if i < n {
        assert IsDigit(s[..n][i]);
      } else {
        assert s[i] == u[i - n];
      }
    }
  }

  function EngineOptions(size: string): Options
  {
    [("SIZE", Str(size)), ("o", Str("size=" + size))]
  }

  lemma {:induction false} NoCommaSplit(s: string)
    requires ',' !in s
    ensures FindComma(s) == |s| && Split(s) == [s]
  {
    if s != "" {
      assert s[0] in s;
      NoCommaSplit(s[1..]);
    }
  }

  function JoinCommas(ts: seq<string>): string
  {
    if ts == [] then "" else if |ts| == 1 then ts[0] else ts[0] + "," + JoinCommas(ts[1..])
  }

  lemma {:induction false} BeforeComma(s: string)
    ensures ',' !in s[..FindComma(s)] && (FindComma(s) < |s| ==> s[FindComma(s)] == ',')
  {
    if s != "" && s[0] != ',' {
      BeforeComma(s[1..]);
      assert s[..FindComma(s)] == [s[0]] + s[1..][..FindComma(s[1..])];
    }
  }

  /** The mount tokens are the pieces between the commas: joined again they are the text. */
  lemma {:induction false} SplitJoins(s: string)
    ensures Split(s) != [] && JoinCommas(Split(s)) == s && forall i :: 0 <= i < |Split(s)| ==> ',' !in Split(s)[i]
    decreases |s|
  {
    var i := FindComma(s);
    BeforeComma(s);
    if i == |s| {
      assert s[..i] == s;
    } else {
      SplitJoins(s[i + 1..]);
      assert Split(s)[1..] == Split(s[i + 1..]);
      assert s == s[..i] + "," + s[i + 1..];
    }
  }

  lemma {:induction false} EqualsAfter(key: string, value: string)
    requires '=' !in key
    ensures FindEquals(key + "=" + value) == |key|
  {
    var t := key + "=" + value;
    if key != "" {
      assert key[0] in key;
      assert t[1..] == key[1..] + "=" + value;
      EqualsAfter(key[1..], value);
    }
  }

  lemma {:induction false} TokenParts(key: string, value: string)
    requires '=' !in key
    ensures var t := key + "=" + value; HasEquals(t) && TokenKey(t) == key && TokenValue(t) == value
  {
    EqualsAfter(key, value);
  }

  lemma {:induction false} StripAlnum(t: string)
    requires t != "" && IsAlnum(t[0]) && IsAlnum(t[|t| - 1])
    ensures Strip(t) == t
  {
  }

  lemma {:induction false} EngineTokens(size: string)
    requires IsSize(size)
    ensures MountTokens(EngineOptions(size)) == Some(["size=" + size])
    ensures Strip("size=" + size) == "size=" + size
    ensures TokenKey("size=" + size) == "size" && HasEquals("size=" + size) && TokenValue("size=" + size) == size
  {
    SizeChars(size);
    var t := "size=" + size;
    assert t == "size" + "=" + size;
    TokenParts("size", size);
    assert t[|t| - 1] == size[|size| - 1];
    StripAlnum(t);
    assert ',' !in t;
    NoCommaSplit(t);
    var es := EngineOptions(size);
    assert es[|es| - 1] == ("o", Str(t));
  }

  lemma {:induction false} EngineEntries(size: string, es: Options)
    requires IsSize(size) && es == EngineOptions(size)
    ensures EntriesOk(es) && !Named(es, "size") && !Named(es, "inodes")
  {
    EngineEntryOk(size);
    assert es[0] == ("SIZE", Str(size)) && es[1] == ("o", Str("size=" + size));
  }

  lemma {:induction false} EngineEntryOk(size: string)
    requires IsSize(size)
    ensures EntryOk(("SIZE", Str(size))) && EntryOk(("o", Str("size=" + size))) && !NamesQuota("o")
  {
    LowerNames();
    assert Lower("o") == "o";
  }

  /** One token that says this. */
  ghost predicate Says(ts: seq<string>, key: string, value: string)
  {
    |ts| == 1 && Strip(ts[0]) != "" && TokenKey(Strip(ts[0])) == key && HasEquals(Strip(ts[0])) && TokenValue(Strip(ts[0])) == value
  }

  lemma {:induction false} OneMount(ts: seq<string>, key: string, value: string, k: string, v: string)
    requires Says(ts, key, value)
    ensures Mounts(ts, k, v) <==> k == key && v == value
  {
    if k == key && v == value {
      assert TokenKey(Strip(ts[0])) == k && TokenValue(Strip(ts[0])) == v;
    }
  }

  lemma {:induction false} EngineMirrors(size: string, es: Options, ts: seq<string>)
    requires es == EngineOptions(size) && Says(ts, "size", size)
    ensures MirrorsRepeat(es, ts)
  {
    forall k, v | IsQuotaKey(k) ensures Entry(es, Upper(k), v) <==> Mounts(ts, k, v) {
      OneMount(ts, "size", size, k, v);
      assert es[0] == ("SIZE", Str(size)) && es[1].0 == "o";
    }
  }

  lemma {:induction false} EngineToken(size: string, ts: seq<string>)
    requires IsSize(size) && Says(ts, "size", size)
    ensures TokensOk(ts)
  {
    LowerNames();
  }

  lemma {:induction false} EngineAcceptable(size: string, es: Options, ts: seq<string>)
    requires IsSize(size) && es == EngineOptions(size) && Says(ts, "size", size)
    ensures Acceptable(es, ts)
  {
    EngineEntries(size, es);
    EngineToken(size, ts);
    EngineMirrors(size, es, ts);
  }

  lemma {:induction false} EngineResult(size: string, es: Options, ts: seq<string>)
    requires es == EngineOptions(size) && Says(ts, "size", size)
    ensures IsResult(es, ts, map["size" := size])
  {
    var m := map["size" := size];
    OneMount(ts, "size", size, "size", size);
    forall k, v | IsQuotaKey(k) && Mounts(ts, k, v) ensures k in m && m[k] == v {
      OneMount(ts, "size", size, k, v);
    }
  }

  /** The engine's upper-case mirror beside the mount option is accepted, for every size. */
  lemma {:induction false} EngineFormAccepted(size: string)
    requires IsSize(size)
    ensures QuotaOf(EngineOptions(size)) == Some(map["size" := size])
  {
    var es, ts := EngineOptions(size), ["size=" + size];
    EngineTokens(size);
    EngineAcceptable(size, es, ts);
    EngineResult(size, es, ts);
    AcceptedIff(es, map["size" := size]);
  }

  lemma {:induction false} SizeOkIsSize(size: string)
    requires SizeOk(size)
    ensures IsSize(size)
  {
    assert size[DigitCount(size)..] == "";
  }

  /** The volume the engine reports for a lease: every allowed size passes inspection in the engine's own form. */
  lemma {:induction false} EngineRecordMatches(l: Lease, size: string)
    requires ValidLease(l) && SizeOk(size)
    ensures var r := Record(Present(l.volumeName), Present(EngineOptions(size)), Present(ExpectedLabels(l, size)), Present("local"), Present("local"));
            MatchesLease(l, r) && RecordOk(r)
  {
    SizeOkIsSize(size);
    EngineFormAccepted(size);
    VolumeNameOk(l);
    assert map["size" := size].Keys == {"size"};
    assert "size" in map["size" := size];
  }
}
