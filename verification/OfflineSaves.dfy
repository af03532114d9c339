/**
  What saving a terminal history leaves in the cache: when it is stored, when it can be missing, and what else goes.
 */
module OfflineSaves {
  import opened Common
  import opened OfflineCache

  lemma {:induction false} FirstTooLarge(t: Trace, size: State -> nat, limit: nat)
    requires Evicting(t, size, limit) && t.gone != []
    ensures size(t.states[0]) > limit
  {
  }

  lemma {:induction false} FitsAtOnce(t: Trace, size: State -> nat, limit: nat)
    requires StopsAtFirstFit(t, size, limit) && size(t.states[0]) <= limit
    ensures t.gone == []
  {
    if t.gone != [] {
      FirstTooLarge(t, size, limit);
    }
  }

  lemma {:induction false} SameKeys<T>(a: map<string, T>, b: map<string, T>)
    requires (forall k :: k in a ==> k in b && a[k] == b[k]) && |a| == |b|
    ensures a == b
  {
    assert |a.Keys| == |a| && |b.Keys| == |b|;
    EqualBySize(a.Keys, b.Keys);
  }

  lemma {:induction false} EqualBySize(a: set<string>, b: set<string>)
    requires a <= b && |a| == |b|
    ensures a == b
  {
    if x :| x in b && x !in a {
      FewerKeys(a, b - {x});
    }
  }

  predicate NotTooMany(s: State)
  {
    |s.files| <= MAXIMUM_RECORDS && |s.diffs| <= MAXIMUM_RECORDS && |s.terminals| <= MAXIMUM_RECORDS
  }

  lemma {:induction false} NothingTrimmed(before: State, after: State)
    requires Trimmed(before, after) && NotTooMany(before)
    ensures after == before
  {
    SameKeys(after.files, before.files);
    SameKeys(after.diffs, before.diffs);
    SameKeys(after.terminals, before.terminals);
  }

  /** Whenever there is room, the result is the old state with the history under its key, and nothing else changed. */
  lemma {:induction false} SavedWithRoom(
      before: State, key: string, record: Record<History>, size: State -> nat, limit: nat, after: State)
    requires Saved(before, key, record, size, limit, after)
    requires var whole := before.(terminals := before.terminals[key := record]); NotTooMany(whole) && size(whole) <= limit
    ensures after == before.(terminals := before.terminals[key := record])
  {
    var whole := before.(terminals := before.terminals[key := record]);
    var trimmed, t := SavedParts(before, key, record, size, limit, after);
    NothingTrimmed(whole, trimmed);
    FitsAtOnce(t, size, limit);
  }

  /** After a removal that leaves the state small enough, nothing else is removed. */
  lemma {:induction false} PersistedWithRoom(proposed: State, size: State -> nat, limit: nat, after: State)
    requires Persisted(proposed, size, limit, after) && size(proposed) <= limit
    ensures after == proposed
  {
    var t :| StopsAtFirstFit(t, size, limit) && t.states[0] == proposed && t.states[|t.gone|] == after;
    FitsAtOnce(t, size, limit);
  }

  /** A terminal that an eviction removes is no newer than what it keeps. */
  lemma {:induction false} EvictedIsOld(t: Trace, key: string, q: Place)
    requires IsEviction(t) && key in t.states[0].terminals && key !in t.states[|t.gone|].terminals && Has(t.states[|t.gone|], q)
    ensures Has(t.states[0], q) && t.states[0].terminals[key].viewedAt <= ViewedAt(t.states[|t.gone|], q)
  {
    EvictionOnlyRemoves(t, |t.gone|, Terminal(key));
    assert t.gone[..|t.gone|] == t.gone;
    var i :| 0 <= i < |t.gone| && t.gone[i] == Terminal(key);
    EvictsOldestFirst(t, i, q);
    EvictionOnlyRemoves(t, |t.gone|, q);
  }

  lemma {:induction false} DroppedIsOld(
      whole: State, trimmed: State, t: Trace, key: string, record: Record<History>, k: string)
    requires Trimmed(whole, trimmed) && IsEviction(t) && t.states[0] == trimmed
    requires key in whole.terminals && whole.terminals[key] == record
    requires key !in t.states[|t.gone|].terminals && k in t.states[|t.gone|].terminals
    ensures record.viewedAt <= t.states[|t.gone|].terminals[k].viewedAt
  {
    EvictionKeepsTerminals(t, |t.gone|, k);
    if key in trimmed.terminals {
      EvictedIsOld(t, key, Terminal(k));
    }
  }

  lemma {:induction false} SavedParts(
      before: State, key: string, record: Record<History>, size: State -> nat, limit: nat, after: State)
    returns (trimmed: State, t: Trace)
    requires Saved(before, key, record, size, limit, after)
    ensures Trimmed(before.(terminals := before.terminals[key := record]), trimmed)
    ensures StopsAtFirstFit(t, size, limit) && t.states[0] == trimmed && t.states[|t.gone|] == after
  {
    trimmed :| Trimmed(before.(terminals := before.terminals[key := record]), trimmed) && Persisted(trimmed, size, limit, after);
    t :| StopsAtFirstFit(t, size, limit) && t.states[0] == trimmed && t.states[|t.gone|] == after;
  }

  /** Whatever is kept was there before, unchanged; the saved history is missing only if every kept terminal is as new. */
  lemma {:induction false} SavedUnlessOld(
      before: State, key: string, record: Record<History>, size: State -> nat, limit: nat, after: State)
    requires Saved(before, key, record, size, limit, after)
    ensures after.dashboard == before.dashboard && |after.terminals| <= MAXIMUM_RECORDS
    ensures key in after.terminals ==> after.terminals[key] == record
    ensures forall k :: k in after.terminals && k != key ==> k in before.terminals && after.terminals[k] == before.terminals[k]
    ensures key !in after.terminals ==> forall k :: k in after.terminals ==> record.viewedAt <= after.terminals[k].viewedAt
  {
    var trimmed, t := SavedParts(before, key, record, size, limit, after);
    AfterEviction(t);
    if key !in after.terminals {
      forall k | k in after.terminals ensures record.viewedAt <= after.terminals[k].viewedAt {
        DroppedIsOld(before.(terminals := before.terminals[key := record]), trimmed, t, key, record, k);
      }
    }
  }

  /** Only this history and the dashboard. */
  function Only(dashboard: Option<string>, key: string, record: Record<History>): State
  {
    State(dashboard, map[], map[], map[key := record])
  }

  ghost predicate Newest(s: State, key: string, now: int)
  {
    forall q :: Has(s, q) && q != Terminal(key) ==> ViewedAt(s, q) < now
  }

  lemma {:induction false} NoOther(s: State, key: string, q: Place)
    requires Oldest(s, Terminal(key)) && Newest(s, key, s.terminals[key].viewedAt) && q != Terminal(key)
    ensures !Has(s, q)
  {
  }

  lemma {:induction false} OldestIsOnly(s: State, key: string)
    requires Oldest(s, Terminal(key)) && Newest(s, key, s.terminals[key].viewedAt)
    ensures s == Only(s.dashboard, key, s.terminals[key])
  {
    forall k ensures k !in s.files { NoOther(s, key, File(k)); }
    forall k ensures k !in s.diffs { NoOther(s, key, Diff(k)); }
    forall k | k != key ensures k !in s.terminals { NoOther(s, key, Terminal(k)); }
  }

  lemma {:induction false} NewestLater(t: Trace, i: nat, key: string, now: int)
    requires IsEviction(t) && i <= |t.gone| && Newest(t.states[0], key, now)
    ensures Newest(t.states[i], key, now)
  {
    forall q | Has(t.states[i], q) && q != Terminal(key) ensures ViewedAt(t.states[i], q) < now {
      EvictionOnlyRemoves(t, i, q);
    }
  }

  lemma {:induction false} EvictedAlone(t: Trace, i: nat, key: string, record: Record<History>)
    requires IsEviction(t) && i < |t.gone| && t.gone[i] == Terminal(key)
    requires key in t.states[0].terminals && t.states[0].terminals[key] == record && Newest(t.states[0], key, record.viewedAt)
    ensures t.states[i] == Only(t.states[0].dashboard, key, record)
  {
    assert Oldest(t.states[i], t.gone[i]);
    EvictionKeepsTerminals(t, i, key);
    EvictionOnlyRemoves(t, i, Terminal(key));
    NewestLater(t, i, key, record.viewedAt);
    OldestIsOnly(t.states[i], key);
  }

  lemma {:induction false} NotEmpty<T>(m: map<string, T>, k: string)
    requires k in m
    ensures |m| > 0
  {
    assert k in m.Keys && |m.Keys| == |m|;
  }

  lemma {:induction false} SomeKey<T>(m: map<string, T>) returns (k: string)
    requires |m| > 0
    ensures k in m
  {
    assert |m.Keys| == |m|;
    k :| k in m.Keys;
  }

  lemma {:induction false} NewestSurvivesTrim(whole: State, trimmed: State, key: string, record: Record<History>)
    requires Trimmed(whole, trimmed) && key in whole.terminals && whole.terminals[key] == record
    requires Newest(whole, key, record.viewedAt)
    ensures key in trimmed.terminals && trimmed.terminals[key] == record && Newest(trimmed, key, record.viewedAt)
  {
    if key !in trimmed.terminals {
      NotEmpty(whole.terminals, key);
      var k := SomeKey(trimmed.terminals);
      assert Has(whole, Terminal(k));
    }
    forall q | Has(trimmed, q) && q != Terminal(key) ensures ViewedAt(trimmed, q) < record.viewedAt {
      assert Has(whole, q) && ViewedAt(whole, q) == ViewedAt(trimmed, q);
    }
  }

  /** A history that is newer than every other record is stored if it fits on its own beside the dashboard. */
  lemma {:induction false} FreshHistoryIsSaved(
      before: State, key: string, record: Record<History>, size: State -> nat, limit: nat, after: State)
    requires Saved(before, key, record, size, limit, after)
    requires Newest(before, key, record.viewedAt) && size(Only(before.dashboard, key, record)) <= limit
    ensures key in after.terminals && after.terminals[key] == record
  {
    var whole := before.(terminals := before.terminals[key := record]);
    forall q | Has(whole, q) && q != Terminal(key) ensures ViewedAt(whole, q) < record.viewedAt {
      assert Has(before, q) && ViewedAt(before, q) == ViewedAt(whole, q);
    }
    var trimmed, t := SavedParts(before, key, record, size, limit, after);
    NewestSurvivesTrim(whole, trimmed, key, record);
    if key !in after.terminals {
      EvictedTooLarge(t, key, record, size, limit);
    } else {
      EvictionKeepsTerminals(t, |t.gone|, key);
    }
  }

  lemma {:induction false} EvictedTooLarge(t: Trace, key: string, record: Record<History>, size: State -> nat, limit: nat)
    requires Evicting(t, size, limit) && key !in t.states[|t.gone|].terminals
    requires key in t.states[0].terminals && t.states[0].terminals[key] == record && Newest(t.states[0], key, record.viewedAt)
    ensures size(Only(t.states[0].dashboard, key, record)) > limit
  {
    EvictionOnlyRemoves(t, |t.gone|, Terminal(key));
    assert t.gone[..|t.gone|] == t.gone;
    var i :| 0 <= i < |t.gone| && t.gone[i] == Terminal(key);
    EvictedAlone(t, i, key, record);
  }
}
