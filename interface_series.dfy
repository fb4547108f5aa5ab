/**
 * The per-interface history both interface monitors keep: for each interface a list of
 * samples and a list of rates. Storing a sample appends it, derives a rate from it and
 * the sample before it, drops samples older than a day and keeps or clears the rates.
 * The stored session readings are pruned and filtered by time the same way.
 */
module InterfaceSeries {
  import opened Wrappers
  import opened InterfaceRates

  /** `timedelta(hours=24)` in seconds. */
  const Day: real := 86400.0

  /** A list comprehension `[x for x in s if p(x)]`. */
  function Keep<T(!new)>(s: seq<T>, p: T -> bool): (r: seq<T>)
    ensures |r| <= |s|
    ensures forall x :: x in r <==> x in s && p(x)
  {
    if s == [] then []
    else Keep(s[..|s| - 1], p) + (if p(s[|s| - 1]) then [s[|s| - 1]] else [])
  }

  /** A non-empty sequence is its front followed by its last element. */
  lemma SplitLast<T>(s: seq<T>)
    requires s != []
    ensures s == s[..|s| - 1] + [s[|s| - 1]]
  {
  }

  /** Filtering a concatenation filters each part, in order. */
  lemma {:induction false} KeepAppend<T(!new)>(a: seq<T>, b: seq<T>, p: T -> bool)
    ensures Keep(a + b, p) == Keep(a, p) + Keep(b, p)
    decreases |b|
  {
    if b == [] {
      assert a + b == a;
    } else {
      var b' := b[..|b| - 1];
      assert (a + b)[..|a + b| - 1] == a + b';
      KeepAppend(a, b', p);
      var last := b[|b| - 1];
      AppendAssoc(Keep(a, p), Keep(b', p), if p(last) then [last] else []);
    }
  }

  /** A filter every element passes changes nothing. */
  lemma {:induction false} KeepAll<T(!new)>(s: seq<T>, p: T -> bool)
    requires forall x :: x in s ==> p(x)
    ensures Keep(s, p) == s
  {
    if s != [] {
      var init := s[..|s| - 1];
      assert forall x :: x in init ==> x in s;
      KeepAll(init, p);
      assert p(s[|s| - 1]);
      SplitLast(s);
    }
  }

  // ---------------------------------------------------------------------------
  // One interface's history

  /** The samples of the last day: `[s for s in samples if s.timestamp > cutoff]` with cutoff `now - Day`. */
  function RecentSamples(samples: seq<InterfaceSample>, now: real): seq<InterfaceSample> {
    Keep(samples, (x: InterfaceSample) => x.timestamp > now - Day)
  }

  /** An interface's sample list after storing `s`: appended, then pruned to the last day. */
  function NextSamples(prev: seq<InterfaceSample>, s: InterfaceSample, now: real): (r: seq<InterfaceSample>)
    ensures forall x :: x in r <==> (x in prev || x == s) && x.timestamp > now - Day
    ensures s.timestamp > now - Day ==> |r| > 0 && r[|r| - 1] == s
  {
    KeepAppend(prev, [s], (x: InterfaceSample) => x.timestamp > now - Day);
    RecentSamples(prev + [s], now)
  }

  /**
   * The rate derived when `s` is stored after `prev`: from the last earlier sample to
   * `s`, when there is one and the calculation succeeds.
   */
  function NewRate(rule: WrapRule, prev: seq<InterfaceSample>, s: InterfaceSample): (r: Option<InterfaceMetrics>)
    ensures prev == [] ==> r.None?
    ensures prev != [] ==> r == Calculate(rule, prev[|prev| - 1], s)
  {
    if |prev| >= 1 then Calculate(rule, prev[|prev| - 1], s) else None
  }

  /**
   * An interface's rate list after storing `s` (None: the interface has no rate list).
   * A new rate is appended, creating the list if need be; then the whole list is kept
   * when some remaining sample is at most a day old and emptied otherwise.
   */
  function NextMetrics(rule: WrapRule, prev: seq<InterfaceSample>, ms: Option<seq<InterfaceMetrics>>,
                       s: InterfaceSample, now: real): (r: Option<seq<InterfaceMetrics>>)
    ensures r.None? <==> ms.None? && NewRate(rule, prev, s).None?
  {
    var rate := NewRate(rule, prev, s);
    var appended := if rate.Some? then Some(ms.GetOr([]) + [rate.value]) else ms;
    var recent := NextSamples(prev, s, now);
    match appended
    case None => None
    case Some(list) =>
      Some(if |Keep(recent, (x: InterfaceSample) => x.timestamp >= now - Day)| > 0 then list else [])
  }

  /**
   * A sample taken within the last day never clears the rate list: the list grows by
   * the new rate when there is one and is unchanged otherwise.
   */
  lemma FreshSampleKeepsRates(rule: WrapRule, prev: seq<InterfaceSample>, ms: Option<seq<InterfaceMetrics>>,
                              s: InterfaceSample, now: real)
    requires s.timestamp > now - Day
    ensures NewRate(rule, prev, s).Some? ==>
      NextMetrics(rule, prev, ms, s, now) == Some(ms.GetOr([]) + [NewRate(rule, prev, s).value])
    ensures NewRate(rule, prev, s).None? ==> NextMetrics(rule, prev, ms, s, now) == ms
  {
    var recent := NextSamples(prev, s, now);
    var p := (x: InterfaceSample) => x.timestamp >= now - Day;
    assert s in Keep(recent, p);
  }

  /**
   * The rate list is emptied only when every sample, the new one included, is older
   * than a day; a list that grew lost nothing.
   */
  lemma StaleSampleClearsRates(rule: WrapRule, prev: seq<InterfaceSample>, ms: Option<seq<InterfaceMetrics>>,
                               s: InterfaceSample, now: real)
    requires s.timestamp <= now - Day && ms.Some?
    requires forall x :: x in prev ==> x.timestamp <= now - Day
    ensures NextMetrics(rule, prev, ms, s, now) == Some([])
  {
    var recent := NextSamples(prev, s, now);
    assert forall x :: x !in recent;
  }

  // ---------------------------------------------------------------------------
  // All interfaces

  type SampleTable = map<string, seq<InterfaceSample>>
  type RateTable = map<string, seq<InterfaceMetrics>>

  function Previous(samples: SampleTable, n: string): seq<InterfaceSample> {
    if n in samples then samples[n] else []
  }

  function PreviousRates(rates: RateTable, n: string): Option<seq<InterfaceMetrics>> {
    if n in rates then Some(rates[n]) else None
  }

  /** Each current interface's sample list once its sample is stored. */
  function NextTable(samples: SampleTable, current: map<string, InterfaceSample>, now: real): (t: SampleTable)
    ensures t.Keys == current.Keys
  {
    map n | n in current :: NextSamples(Previous(samples, n), current[n], now)
  }

  /** `base` with the entries of `keys` taken from `next`. */
  function Overlay<V>(base: map<string, V>, next: map<string, V>, keys: set<string>): (r: map<string, V>)
    requires keys <= next.Keys
    ensures r.Keys == base.Keys + keys
    ensures forall k :: k in keys ==> r[k] == next[k]
    ensures forall k :: k in base && k !in keys ==> r[k] == base[k]
  {
    map k | k in base.Keys + keys :: if k in keys then next[k] else base[k]
  }

  /** Overlaying one more key replaces just that entry. */
  lemma OverlayStep<V>(base: map<string, V>, next: map<string, V>, keys: set<string>, n: string)
    requires keys <= next.Keys && n in next
    ensures Overlay(base, next, keys + {n}) == Overlay(base, next, keys)[n := next[n]]
  {
    var a, b := Overlay(base, next, keys + {n}), Overlay(base, next, keys)[n := next[n]];
    assert a.Keys == b.Keys;
    UpdatesAgree(a, b);
  }

  /** The sample table after storing `current[n]` for each name `n` in `stored`. */
  function StoreSamples(samples: SampleTable, current: map<string, InterfaceSample>, stored: set<string>, now: real)
    : (r: SampleTable)
    requires stored <= current.Keys
    ensures r.Keys == samples.Keys + stored
    ensures forall n :: n in stored ==> r[n] == NextSamples(Previous(samples, n), current[n], now)
    ensures forall n :: n in samples && n !in stored ==> r[n] == samples[n]
  {
    map n | n in samples.Keys + stored ::
      if n in stored then NextSamples(Previous(samples, n), current[n], now) else samples[n]
  }

  /** The new rate list of each stored interface (None: it has none). */
  function RateUpdates(rule: WrapRule, samples: SampleTable, rates: RateTable, current: map<string, InterfaceSample>,
                       stored: set<string>, now: real): (u: map<string, Option<seq<InterfaceMetrics>>>)
    requires stored <= current.Keys
    ensures u.Keys == stored
    ensures forall n :: n in stored ==> u[n] == NextMetrics(rule, Previous(samples, n), PreviousRates(rates, n), current[n], now)
  {
    map n | n in stored :: NextMetrics(rule, Previous(samples, n), PreviousRates(rates, n), current[n], now)
  }

  /** A rate table with some entries replaced or removed. */
  function ApplyRates(rates: RateTable, updates: map<string, Option<seq<InterfaceMetrics>>>): (r: RateTable)
    ensures forall n :: n in updates ==> (n in r <==> updates[n].Some?) && (n in r ==> r[n] == updates[n].value)
    ensures forall n :: n !in updates ==> (n in r <==> n in rates) && (n in r ==> r[n] == rates[n])
  {
    map n | n in rates.Keys + updates.Keys && (n !in updates || updates[n].Some?) ::
      if n in updates then updates[n].value else rates[n]
  }

  /** The rate table after storing `current[n]` for each name `n` in `stored`. */
  function StoreRates(rule: WrapRule, samples: SampleTable, rates: RateTable, current: map<string, InterfaceSample>,
                      stored: set<string>, now: real): (r: RateTable)
    requires stored <= current.Keys
    ensures forall n :: n !in stored ==> PreviousRates(r, n) == PreviousRates(rates, n)
    ensures forall n :: n in stored ==>
      PreviousRates(r, n) == NextMetrics(rule, Previous(samples, n), PreviousRates(rates, n), current[n], now)
  {
    ApplyRates(rates, RateUpdates(rule, samples, rates, current, stored, now))
  }

  /**
   * The loop body of `_collect_interface_stats` for one interface: append the sample,
   * derive a rate from the last two samples, prune the samples to the last day, and
   * keep or clear the rates.
   */
  method StoreOne(rule: WrapRule, samples: SampleTable, rates: RateTable, n: string, s: InterfaceSample, now: real)
    returns (samples': SampleTable, rates': RateTable)
    ensures samples' == samples[n := NextSamples(Previous(samples, n), s, now)]
    ensures var next := NextMetrics(rule, Previous(samples, n), PreviousRates(rates, n), s, now);
      rates' == if next.Some? then rates[n := next.value] else rates
  {
    var prev := Previous(samples, n);
    var list := prev + [s];
    var ms := PreviousRates(rates, n);
    if |list| >= 2 {
      var rate := Calculate(rule, list[|list| - 2], s);
      if rate.Some? {
        ms := Some(ms.GetOr([]) + [rate.value]);
      }
    }
    assert |list| >= 2 ==> list[|list| - 2] == prev[|prev| - 1];
    list := Keep(list, (x: InterfaceSample) => x.timestamp > now - Day);
    assert list == NextSamples(prev, s, now);
    if ms.Some? {
      var recent := Keep(list, (x: InterfaceSample) => x.timestamp >= now - Day);
      ms := Some(if |recent| > 0 then ms.value else []);
    }
    assert ms == NextMetrics(rule, prev, PreviousRates(rates, n), s, now);
    samples' := samples[n := list];
    rates' := if ms.Some? then rates[n := ms.value] else rates;
  }

  /** Storing one more interface's sample extends the sample table by that interface. */
  lemma StoreSamplesStep(samples: SampleTable, current: map<string, InterfaceSample>, stored: set<string>,
                         n: string, now: real)
    requires stored <= current.Keys && n in current && n !in stored
    ensures StoreSamples(samples, current, stored + {n}, now)
      == StoreSamples(samples, current, stored, now)[n := NextSamples(Previous(samples, n), current[n], now)]
  {
    var next := NextTable(samples, current, now);
    assert next[n] == NextSamples(Previous(samples, n), current[n], now);
    OverlayStep(samples, next, stored, n);
    StoreSamplesOverlay(samples, current, stored, now);
    StoreSamplesOverlay(samples, current, stored + {n}, now);
  }

  /** The sample table is the stored entries of the next-sample table laid over the old one. */
  lemma StoreSamplesOverlay(samples: SampleTable, current: map<string, InterfaceSample>, stored: set<string>, now: real)
    requires stored <= current.Keys
    ensures StoreSamples(samples, current, stored, now) == Overlay(samples, NextTable(samples, current, now), stored)
  {
    var a, b := StoreSamples(samples, current, stored, now), Overlay(samples, NextTable(samples, current, now), stored);
    assert a.Keys == b.Keys;
    UpdatesAgree(a, b);
  }

  /** Replacing one more entry of a rate table. */
  lemma ApplyRatesStep(rates: RateTable, updates: map<string, Option<seq<InterfaceMetrics>>>,
                       n: string, next: Option<seq<InterfaceMetrics>>)
    requires n !in updates
    ensures ApplyRates(rates, updates[n := next])
      == if next.Some? then ApplyRates(rates, updates)[n := next.value] else ApplyRates(rates, updates) - {n}
  {
  }

  /** Storing one more interface's sample replaces or removes that interface's rate list. */
  lemma StoreRatesStep(rule: WrapRule, samples: SampleTable, rates: RateTable, current: map<string, InterfaceSample>,
                       stored: set<string>, n: string, now: real)
    requires stored <= current.Keys && n in current && n !in stored
    ensures var next := NextMetrics(rule, Previous(samples, n), PreviousRates(rates, n), current[n], now);
      var before := StoreRates(rule, samples, rates, current, stored, now);
      StoreRates(rule, samples, rates, current, stored + {n}, now)
        == if next.Some? then before[n := next.value] else before - {n}
  {
    var next := NextMetrics(rule, Previous(samples, n), PreviousRates(rates, n), current[n], now);
    var u := RateUpdates(rule, samples, rates, current, stored, now);
    RateUpdatesStep(rule, samples, rates, current, stored, n, now);
    ApplyRatesStep(rates, u, n, next);
  }

  /** One more stored interface adds its own rate update. */
  lemma RateUpdatesStep(rule: WrapRule, samples: SampleTable, rates: RateTable, current: map<string, InterfaceSample>,
                        stored: set<string>, n: string, now: real)
    requires stored <= current.Keys && n in current && n !in stored
    ensures RateUpdates(rule, samples, rates, current, stored + {n}, now)
      == RateUpdates(rule, samples, rates, current, stored, now)[n := NextMetrics(rule, Previous(samples, n), PreviousRates(rates, n), current[n], now)]
  {
    var a := RateUpdates(rule, samples, rates, current, stored + {n}, now);
    var b := RateUpdates(rule, samples, rates, current, stored, now)[n := NextMetrics(rule, Previous(samples, n), PreviousRates(rates, n), current[n], now)];
    assert a.Keys == b.Keys;
    UpdatesAgree(a, b);
  }

  /** Two maps with the same keys whose entries agree are equal. */
  lemma UpdatesAgree<K, V>(a: map<K, V>, b: map<K, V>)
    requires a.Keys == b.Keys && forall k :: k in a ==> a[k] == b[k]
    ensures a == b
  {
  }

  /** One round of the loop of `_collect_interface_stats` on the sample table built so far. */
  lemma StoreAllSamplesStep(samples: SampleTable, current: map<string, InterfaceSample>,
                            keep: set<string>, done: set<string>, n: string, now: real)
    requires done <= current.Keys && n in current && n !in done
    ensures var s := StoreSamples(samples, current, done * keep, now);
      StoreSamples(samples, current, (done + {n}) * keep, now)
        == (if n in keep then s[n := NextSamples(Previous(samples, n), current[n], now)] else s)
  {
    var stored := done * keep;
    if n in keep {
      StoreSamplesStep(samples, current, stored, n, now);
      assert (done + {n}) * keep == stored + {n};
    } else {
      assert (done + {n}) * keep == stored;
    }
  }

  /** Storing one more interface gives it its next rate list, or leaves the table alone when there is none. */
  lemma StoreKeptRates(rule: WrapRule, samples: SampleTable, rates: RateTable, current: map<string, InterfaceSample>,
                       stored: set<string>, n: string, now: real)
    requires stored <= current.Keys && n in current && n !in stored
    ensures var r := StoreRates(rule, samples, rates, current, stored, now);
      var next := NextMetrics(rule, Previous(samples, n), PreviousRates(rates, n), current[n], now);
      StoreRates(rule, samples, rates, current, stored + {n}, now) == (if next.Some? then r[n := next.value] else r)
  {
    var r := StoreRates(rule, samples, rates, current, stored, now);
    var next := NextMetrics(rule, Previous(samples, n), PreviousRates(rates, n), current[n], now);
    StoreRatesStep(rule, samples, rates, current, stored, n, now);
    if next.None? {
      RatesBeforeStore(rule, samples, rates, current, stored, n, now);
      assert n !in r;
      assert r - {n} == r;
    }
  }

  /** One round of the loop of `_collect_interface_stats` on the rate table built so far. */
  lemma StoreAllRatesStep(rule: WrapRule, samples: SampleTable, rates: RateTable, current: map<string, InterfaceSample>,
                          keep: set<string>, done: set<string>, n: string, now: real)
    requires done <= current.Keys && n in current && n !in done
    ensures var r := StoreRates(rule, samples, rates, current, done * keep, now);
      var next := NextMetrics(rule, Previous(samples, n), PreviousRates(rates, n), current[n], now);
      StoreRates(rule, samples, rates, current, (done + {n}) * keep, now)
        == (if n in keep && next.Some? then r[n := next.value] else r)
  {
    KeptAfter(done, keep, n);
    if n in keep {
      StoreKeptRates(rule, samples, rates, current, done * keep, n, now);
    }
  }

  /** The kept interfaces after one more round of the loop. */
  lemma KeptAfter(done: set<string>, keep: set<string>, n: string)
    ensures (done + {n}) * keep == if n in keep then done * keep + {n} else done * keep
  {
  }

  /** An interface not yet stored still has its old samples. */
  lemma SamplesBeforeStore(samples: SampleTable, current: map<string, InterfaceSample>,
                           stored: set<string>, n: string, now: real)
    requires stored <= current.Keys && n !in stored
    ensures Previous(StoreSamples(samples, current, stored, now), n) == Previous(samples, n)
  {
  }

  /** An interface not yet stored still has its old rate list. */
  lemma RatesBeforeStore(rule: WrapRule, samples: SampleTable, rates: RateTable, current: map<string, InterfaceSample>,
                         stored: set<string>, n: string, now: real)
    requires stored <= current.Keys && n !in stored
    ensures PreviousRates(StoreRates(rule, samples, rates, current, stored, now), n) == PreviousRates(rates, n)
  {
    var u := RateUpdates(rule, samples, rates, current, stored, now);
    assert n !in u;
  }

  /**
   * The loop of `_collect_interface_stats`: every interface of `current` that `keep`
   * admits has its sample stored, one at a time.
   */
  method StoreAll(rule: WrapRule, samples: SampleTable, rates: RateTable, current: map<string, InterfaceSample>,
                  keep: set<string>, now: real)
    returns (samples': SampleTable, rates': RateTable)
    ensures samples' == StoreSamples(samples, current, current.Keys * keep, now)
    ensures rates' == StoreRates(rule, samples, rates, current, current.Keys * keep, now)
  {
    samples', rates' := samples, rates;
    var todo := current.Keys;
    ghost var done: set<string> := {};
    while todo != {}
      invariant todo + done == current.Keys && todo !! done
      invariant samples' == StoreSamples(samples, current, done * keep, now)
      invariant rates' == StoreRates(rule, samples, rates, current, done * keep, now)
      decreases todo
    {
      var n :| n in todo;
      SamplesBeforeStore(samples, current, done * keep, n, now);
      RatesBeforeStore(rule, samples, rates, current, done * keep, n, now);
      StoreAllSamplesStep(samples, current, keep, done, n, now);
      StoreAllRatesStep(rule, samples, rates, current, keep, done, n, now);
      if n in keep {
        samples', rates' := StoreOne(rule, samples', rates', n, current[n], now);
      }
      todo, done := todo - {n}, done + {n};
    }
  }

  /**
   * Storing keeps every stored interface's samples within the last day, and each
   * interface's samples are snapshots of that interface when they were before.
   */
  lemma StoreSamplesInvariant(samples: SampleTable, current: map<string, InterfaceSample>, stored: set<string>, now: real)
    requires stored <= current.Keys
    requires forall n :: n in current ==> current[n].name == n
    requires forall n, x :: n in samples && x in samples[n] ==> x.name == n
    ensures var r := StoreSamples(samples, current, stored, now);
      && (forall n, x :: n in r && x in r[n] ==> x.name == n)
      && (forall n, x :: n in stored && x in r[n] ==> x.timestamp > now - Day)
  {
  }

  /** A stored interface's rate list never shrinks while its new sample is fresh. */
  lemma StoreRatesGrow(rule: WrapRule, samples: SampleTable, rates: RateTable, current: map<string, InterfaceSample>,
                       stored: set<string>, now: real, n: string)
    requires stored <= current.Keys && n in stored && n in rates && current[n].timestamp > now - Day
    ensures var r := StoreRates(rule, samples, rates, current, stored, now);
      n in r && |r[n]| >= |rates[n]| && r[n][..|rates[n]|] == rates[n]
  {
    assert PreviousRates(rates, n) == Some(rates[n]);
    FreshSampleExtends(rule, Previous(samples, n), rates[n], current[n], now);
  }

  /** A fresh sample leaves an existing rate list as a prefix of the new one. */
  lemma FreshSampleExtends(rule: WrapRule, prev: seq<InterfaceSample>, list: seq<InterfaceMetrics>,
                           s: InterfaceSample, now: real)
    requires s.timestamp > now - Day
    ensures var next := NextMetrics(rule, prev, Some(list), s, now);
      next.Some? && |next.value| >= |list| && next.value[..|list|] == list
  {
    FreshSampleKeepsRates(rule, prev, Some(list), s, now);
  }

  // ---------------------------------------------------------------------------
  // Session readings

  /** The session readings of the last day. */
  function RecentSessions(stats: seq<SessionStats>, now: real): (r: seq<SessionStats>)
    ensures |r| <= |stats|
    ensures forall x :: x in r <==> x in stats && x.timestamp > now - Day
  {
    Keep(stats, (x: SessionStats) => x.timestamp > now - Day)
  }

  /** A reading inside the optional bounds of `get_session_stats`. */
  predicate InWindow(x: SessionStats, start: Option<real>, end: Option<real>) {
    (start.None? || x.timestamp >= start.value) && (end.None? || x.timestamp <= end.value)
  }

  /**
   * `get_session_stats`: every stored reading without bounds, else those within them,
   * in stored order.
   */
  function SessionWindow(stats: seq<SessionStats>, start: Option<real>, end: Option<real>): (r: seq<SessionStats>)
    ensures forall x :: x in r <==> x in stats && InWindow(x, start, end)
    ensures start.None? && end.None? ==> r == stats
  {
    if start.None? && end.None? then stats
    else Keep(stats, (x: SessionStats) => InWindow(x, start, end))
  }

  /** One more reading joins the window exactly when it lies inside it. */
  lemma WindowStep(stats: seq<SessionStats>, i: nat, start: Option<real>, end: Option<real>)
    requires i < |stats|
    ensures Keep(stats[..i + 1], (x: SessionStats) => InWindow(x, start, end))
      == Keep(stats[..i], (x: SessionStats) => InWindow(x, start, end)) + (if InWindow(stats[i], start, end) then [stats[i]] else [])
  {
    assert stats[..i + 1][..i] == stats[..i];
  }

  /** The loop of `get_session_stats`: a reading outside either given bound is skipped. */
  method SessionsBetween(stats: seq<SessionStats>, start: Option<real>, end: Option<real>) returns (r: seq<SessionStats>)
    ensures r == SessionWindow(stats, start, end)
  {
    if start.None? && end.None? {
      return stats;
    }
    r := [];
    for i := 0 to |stats|
      invariant r == Keep(stats[..i], (x: SessionStats) => InWindow(x, start, end))
    {
      WindowStep(stats, i, start, end);
      if start.Some? && stats[i].timestamp < start.value {
        continue;
      }
      if end.Some? && stats[i].timestamp > end.value {
        continue;
      }
      r := r + [stats[i]];
    }
    assert stats[..|stats|] == stats;
  }

  /** The window of readings stored one after another is the windows of each, in order. */
  lemma SessionWindowAppend(a: seq<SessionStats>, b: seq<SessionStats>, start: Option<real>, end: Option<real>)
    ensures SessionWindow(a + b, start, end) == SessionWindow(a, start, end) + SessionWindow(b, start, end)
  {
    KeepAppend(a, b, (x: SessionStats) => InWindow(x, start, end));
  }
}
