/**
 * `InterfaceMonitor` of interface_monitor_fixed.py: the monitor with an authentication
 * check, collection filtered by the monitoring policy, and a worker loop that stops
 * after five consecutive failures.
 *
 * The client's replies are parameters: the raw text of a reply (None when the request
 * returned nothing or raised), the interface samples the two-stage collector produced,
 * and the reading the session parser produced. `now` is the one clock reading of a call.
 */
module FixedInterfaceMonitor {
  import opened Wrappers
  import opened Text
  import opened InterfaceRates
  import opened InterfacePolicy
  import opened InterfaceSeries

  const SuccessMarker: string := "status=\"success\""
  const ErrorMarker: string := "status=\"error\""

  /** Seconds between two authentication checks of the worker. */
  const AuthInterval: real := 300.0
  /** Consecutive failures after which the worker stops. */
  const MaxFailures: nat := 5

  /** `_check_authentication`'s test of the reply: non-empty and reporting success. */
  predicate AuthReplyOk(reply: Option<string>) {
    reply.Some? && reply.value != "" && Contains(reply.value, SuccessMarker)
  }

  /** The names of `current` the policy monitors. */
  function MonitoredNames(p: Policy, current: map<string, InterfaceSample>): (r: set<string>)
    ensures r <= current.Keys
    ensures forall n :: n in r <==> n in current && ShouldMonitor(p, n)
  {
    set n | n in current && ShouldMonitor(p, n)
  }

  /** Every one of `names` is monitored under `p`. */
  predicate MonitoredOnly(p: Policy, names: set<string>) {
    forall n :: n in names ==> ShouldMonitor(p, n)
  }

  /** The session reading `_collect_session_stats` keeps, if any. */
  function AcceptedSession(xml: Option<string>, parsed: Option<SessionStats>): (r: Option<SessionStats>)
    ensures r.Some? <==> xml.Some? && xml.value != "" && !Contains(xml.value, ErrorMarker)
                         && parsed.Some? && parsed.value.success
    ensures r.Some? ==> r == parsed && r.value.success
  {
    if xml.None? || xml.value == "" || Contains(xml.value, ErrorMarker) then None
    else if parsed.Some? && parsed.value.success then parsed
    else None
  }

  // ---------------------------------------------------------------------------
  // The failure count of the worker

  /** What the periodic authentication check did in one round. */
  datatype AuthCheck = NotDue | Passed | Failed

  /** The check is due when there has been none, or the last is more than five minutes old. */
  predicate AuthDue(lastAuthCheck: Option<real>, now: real) {
    lastAuthCheck.None? || now - lastAuthCheck.value > AuthInterval
  }

  /** The failure count after the authentication check. */
  function AfterAuth(failures: nat, auth: AuthCheck): (r: nat)
    ensures auth == Passed ==> r == 0
    ensures auth == Failed ==> r == failures + 1
    ensures auth == NotDue ==> r == failures
  {
    match auth
    case NotDue => failures
    case Passed => 0
    case Failed => failures + 1
  }

  /**
   * The failure count at the end of a round: a collection, made only while
   * authenticated, resets it on success and raises it on failure.
   */
  function RoundFailures(failures: nat, auth: AuthCheck, authenticated: bool, collected: bool): (r: nat)
    ensures authenticated && collected ==> r == 0
    ensures authenticated && !collected ==> r == AfterAuth(failures, auth) + 1
    ensures !authenticated ==> r == AfterAuth(failures, auth)
  {
    var f := AfterAuth(failures, auth);
    if authenticated then (if collected then 0 else f + 1) else f
  }

  /** One round's inputs: the clock, and the replies the client would give. */
  datatype Round = Round(
    now: real,
    authReply: Option<string>,
    current: map<string, InterfaceSample>,
    sessionXml: Option<string>,
    sessionParsed: Option<SessionStats>)

  /** The monitor's authentication flag and the time of its last successful check. */
  datatype AuthState = AuthState(authenticated: bool, lastAuthCheck: Option<real>)

  /** What the round's authentication check does, given the state it starts in. */
  function RoundAuth(s: AuthState, r: Round): AuthCheck {
    if !AuthDue(s.lastAuthCheck, r.now) then NotDue
    else if AuthReplyOk(r.authReply) then Passed else Failed
  }

  /**
   * The authentication state after the round's check: a passed check authenticates and
   * records the time, a failed one clears the flag and keeps the old time.
   */
  function NextAuth(s: AuthState, r: Round): (s': AuthState)
    ensures RoundAuth(s, r) == NotDue ==> s' == s
    ensures RoundAuth(s, r) == Passed ==> s' == AuthState(true, Some(r.now))
    ensures RoundAuth(s, r) == Failed ==> s' == AuthState(false, s.lastAuthCheck)
  {
    match RoundAuth(s, r)
    case NotDue => s
    case Passed => AuthState(true, Some(r.now))
    case Failed => AuthState(false, s.lastAuthCheck)
  }

  /** The failure count at the end of round `r`, started with `failures` in state `s`. */
  function FailuresAfter(failures: nat, s: AuthState, r: Round): nat {
    RoundFailures(failures, RoundAuth(s, r), NextAuth(s, r).authenticated, |r.current| > 0)
  }

  /**
   * The worker's run over `rounds`, from `failures` in state `s`: the final failure count
   * and the number of rounds run. It stops after the first round that ends with five
   * failures, and otherwise runs every round.
   */
  function Worker(failures: nat, s: AuthState, rounds: seq<Round>): (r: (nat, nat))
    requires failures < MaxFailures
    ensures r.1 <= |rounds| && r.0 <= MaxFailures
    ensures r.1 < |rounds| ==> r.0 == MaxFailures
    ensures r.0 == MaxFailures ==> r.1 > 0
    ensures r.1 > 0 ==> r.0 < MaxFailures ==> r.1 == |rounds|
    decreases |rounds|
  {
    if rounds == [] then (failures, 0)
    else
      var f := FailuresAfter(failures, s, rounds[0]);
      RoundFailuresBounded(failures, RoundAuth(s, rounds[0]), NextAuth(s, rounds[0]).authenticated, |rounds[0].current| > 0);
      if f == MaxFailures then (f, 1)
      else
        var w := Worker(f, NextAuth(s, rounds[0]), rounds[1..]);
        (w.0, w.1 + 1)
  }

  /** Running one more round: the worker stops there, or goes on with the rest. */
  lemma WorkerStep(failures: nat, s: AuthState, rounds: seq<Round>, k: nat, total: (nat, nat))
    requires failures < MaxFailures && k < |rounds|
    requires total.0 == Worker(failures, s, rounds[k..]).0 && total.1 == k + Worker(failures, s, rounds[k..]).1
    ensures var f := FailuresAfter(failures, s, rounds[k]);
      && (f == MaxFailures ==> total == (f, k + 1))
      && (f < MaxFailures ==>
            total.0 == Worker(f, NextAuth(s, rounds[k]), rounds[k + 1..]).0
            && total.1 == k + 1 + Worker(f, NextAuth(s, rounds[k]), rounds[k + 1..]).1)
  {
    assert rounds[k..][0] == rounds[k] && rounds[k..][1..] == rounds[k + 1..];
  }

  /**
   * A worker that has never authenticated and whose every check fails runs five rounds
   * and stops with five failures, however many rounds it was given.
   */
  lemma {:induction false} WorkerStopsAfterFailedChecks(failures: nat, rounds: seq<Round>)
    requires failures < MaxFailures && |rounds| >= MaxFailures - failures
    requires forall i :: 0 <= i < |rounds| ==> !AuthReplyOk(rounds[i].authReply)
    ensures Worker(failures, AuthState(false, None), rounds) == (MaxFailures, MaxFailures - failures)
    decreases MaxFailures - failures
  {
    var s := AuthState(false, None);
    assert RoundAuth(s, rounds[0]) == Failed;
    if failures + 1 < MaxFailures {
      assert forall i :: 0 <= i < |rounds[1..]| ==> rounds[1..][i] == rounds[i + 1];
      WorkerStopsAfterFailedChecks(failures + 1, rounds[1..]);
    }
  }

  /** What the monitor keeps between rounds: samples, rates, session readings and discovered names. */
  datatype Series = Series(samples: SampleTable, rates: RateTable, sessionStats: seq<SessionStats>,
                           discovered: set<string>)

  /**
   * The series after a round's collections under policy `p`. Nothing is collected
   * unless the monitor is authenticated once the round's check is done.
   */
  function RoundSeries(p: Policy, authenticated: bool, sr: Series, r: Round): Series {
    if !authenticated then sr
    else
      var stored := MonitoredNames(p, r.current);
      var sessions := if AcceptedSession(r.sessionXml, r.sessionParsed).Some?
        then RecentSessions(sr.sessionStats + [r.sessionParsed.value], r.now) else sr.sessionStats;
      if |r.current| == 0 then sr.(sessionStats := sessions)
      else
        Series(StoreSamples(sr.samples, r.current, stored, r.now),
          StoreRates(Wrap64Heuristic, sr.samples, sr.rates, r.current, stored, r.now), sessions,
          if p.autoDiscover then sr.discovered + stored else sr.discovered)
  }

  /** The authentication state and the series after running `rounds` in order under policy `p`. */
  function Run(p: Policy, s: AuthState, sr: Series, rounds: seq<Round>): (AuthState, Series) {
    if rounds == [] then (s, sr)
    else
      var before := Run(p, s, sr, rounds[..|rounds| - 1]);
      var last := rounds[|rounds| - 1];
      var a := NextAuth(before.0, last);
      (a, RoundSeries(p, a.authenticated, before.1, last))
  }

  /**
   * A monitor that is not authenticated and whose every check fails collects nothing,
   * however many rounds it runs.
   */
  lemma {:induction false} RunWithoutAuthKeepsSeries(p: Policy, last: Option<real>, sr: Series, rounds: seq<Round>)
    requires forall i :: 0 <= i < |rounds| ==> !AuthReplyOk(rounds[i].authReply)
    ensures !Run(p, AuthState(false, last), sr, rounds).0.authenticated
    ensures Run(p, AuthState(false, last), sr, rounds).1 == sr
  {
    if rounds != [] {
      var front := rounds[..|rounds| - 1];
      assert forall i :: 0 <= i < |front| ==> front[i] == rounds[i];
      RunWithoutAuthKeepsSeries(p, last, sr, front);
    }
  }

  /** A round that starts below the limit ends at most at the limit. */
  lemma RoundFailuresBounded(failures: nat, auth: AuthCheck, authenticated: bool, collected: bool)
    requires failures < MaxFailures
    requires auth == Failed ==> !authenticated
    ensures RoundFailures(failures, auth, authenticated, collected) <= MaxFailures
  {
  }

  /** The failure count after `k` rounds in which the authentication check fails. */
  function FailedRounds(failures: nat, k: nat): (r: nat)
    ensures r == failures + k
  {
    if k == 0 then failures else RoundFailures(FailedRounds(failures, k - 1), Failed, false, false)
  }

  /** From a clean start, four failed checks keep the worker running and the fifth stops it. */
  lemma {:induction false} FiveFailedChecksStop()
    ensures forall k :: 0 <= k < 5 ==> FailedRounds(0, k) < MaxFailures
    ensures FailedRounds(0, 5) == MaxFailures
  {
  }

  /** A round whose check passes and whose collection succeeds clears any earlier failures. */
  lemma SuccessfulRoundResets(failures: nat)
    ensures RoundFailures(failures, Passed, true, true) == 0
  {
  }

  /**
   * Storing only monitored interfaces keeps every stored interface a monitored one, and
   * every interface's samples snapshots of it.
   */
  lemma StoredMonitored(p: Policy, samples: SampleTable, current: map<string, InterfaceSample>,
                        stored: set<string>, now: real)
    requires stored == MonitoredNames(p, current)
    requires MonitoredOnly(p, samples.Keys)
    requires forall n :: n in current ==> current[n].name == n
    requires forall n, x :: n in samples && x in samples[n] ==> x.name == n
    ensures var r := StoreSamples(samples, current, stored, now);
      && MonitoredOnly(p, r.Keys)
      && (forall n, x :: n in r && x in r[n] ==> x.name == n)
  {
    StoreSamplesInvariant(samples, current, stored, now);
  }

  /** The loop of `_collect_interface_stats` restricted to the interfaces the policy monitors. */
  method StoreMonitored(p: Policy, samples: SampleTable, rates: RateTable, current: map<string, InterfaceSample>,
                        now: real)
    returns (samples': SampleTable, rates': RateTable)
    requires MonitoredOnly(p, samples.Keys)
    requires forall n :: n in current ==> current[n].name == n
    requires forall n, x :: n in samples && x in samples[n] ==> x.name == n
    ensures samples' == StoreSamples(samples, current, MonitoredNames(p, current), now)
    ensures rates' == StoreRates(Wrap64Heuristic, samples, rates, current, MonitoredNames(p, current), now)
    ensures MonitoredOnly(p, samples'.Keys)
    ensures forall n, x :: n in samples' && x in samples'[n] ==> x.name == n
  {
    var stored := MonitoredNames(p, current);
    assert current.Keys * stored == stored;
    StoredMonitored(p, samples, current, stored, now);
    samples', rates' := StoreAll(Wrap64Heuristic, samples, rates, current, stored, now);
  }

  /** Discovering the monitored names of a collection keeps every discovered name a monitored one. */
  lemma DiscoveredMonitored(p: Policy, discovered: set<string>, current: map<string, InterfaceSample>)
    requires MonitoredOnly(p, discovered)
    ensures MonitoredOnly(p, discovered + MonitoredNames(p, current))
  {
  }

  class InterfaceMonitor {
    var interfaceConfigs: map<string, InterfaceConfig>
    var autoDiscover: bool
    var excludePatterns: seq<string>
    var firewallRule: Option<set<string>>
    var samples: SampleTable
    var rates: RateTable
    var sessionStats: seq<SessionStats>
    var discovered: set<string>
    var authenticated: bool
    var lastAuthCheck: Option<real>
    const sampleInterval: int

    /** The settings `_should_monitor_interface` reads. */
    function CurrentPolicy(): Policy
      reads this
    {
      Policy(excludePatterns, firewallRule, interfaceConfigs, autoDiscover)
    }

    /**
     * Samples are kept, and interfaces discovered, only where the policy monitors them;
     * each interface's samples are snapshots of it; kept session readings succeeded.
     */
    ghost predicate Valid()
      reads this
    {
      && MonitoredOnly(CurrentPolicy(), samples.Keys)
      && MonitoredOnly(CurrentPolicy(), discovered)
      && (forall n, x :: n in samples && x in samples[n] ==> x.name == n)
      && (forall x :: x in sessionStats ==> x.success)
    }

    /** `__init__`: as in interface_monitor.py, and not yet authenticated. */
    constructor(fw: Option<FirewallInterfaces>)
      ensures Valid()
      ensures CurrentPolicy() == InitialPolicy(fw)
      ensures samples == map[] && rates == map[] && sessionStats == [] && discovered == {}
      ensures !authenticated && lastAuthCheck == None && sampleInterval == 30
    {
      var p := InitialPolicy(fw);
      interfaceConfigs := p.configs;
      autoDiscover := p.autoDiscover;
      excludePatterns := p.excludePatterns;
      firewallRule := p.firewallRule;
      samples, rates, sessionStats, discovered := map[], map[], [], {};
      authenticated, lastAuthCheck := false, None;
      sampleInterval := 30;
    }

    /**
     * `_check_authentication`: a reply reporting success authenticates and records the
     * time; any other reply, or none, clears the flag and keeps the last check time.
     */
    method CheckAuthentication(reply: Option<string>, now: real) returns (ok: bool)
      modifies this
      ensures ok == AuthReplyOk(reply) && authenticated == ok
      ensures lastAuthCheck == if ok then Some(now) else old(lastAuthCheck)
      ensures CurrentPolicy() == old(CurrentPolicy()) && samples == old(samples) && rates == old(rates)
      ensures sessionStats == old(sessionStats) && discovered == old(discovered)
    {
      if reply.Some? && reply.value != "" && Contains(reply.value, SuccessMarker) {
        authenticated := true;
        lastAuthCheck := Some(now);
        return true;
      }
      authenticated := false;
      return false;
    }

    /**
     * `_collect_interface_stats`: nothing collected is a failure; otherwise every
     * monitored interface is discovered (when auto-discovery is on) and has its sample
     * stored with the wrap heuristic, and the rest are skipped.
     */
    method CollectInterfaceStats(current: map<string, InterfaceSample>, now: real) returns (ok: bool)
      requires Valid()
      requires forall n :: n in current ==> current[n].name == n
      modifies this
      ensures Valid()
      ensures ok <==> |current| > 0
      ensures !ok ==> samples == old(samples) && rates == old(rates) && discovered == old(discovered)
      ensures ok ==>
        var stored := MonitoredNames(old(CurrentPolicy()), current);
        && samples == StoreSamples(old(samples), current, stored, now)
        && rates == StoreRates(Wrap64Heuristic, old(samples), old(rates), current, stored, now)
        && discovered == if autoDiscover then old(discovered) + stored else old(discovered)
      ensures CurrentPolicy() == old(CurrentPolicy()) && sessionStats == old(sessionStats)
      ensures authenticated == old(authenticated) && lastAuthCheck == old(lastAuthCheck)
    {
      if |current| == 0 {
        return false;
      }
      var p := CurrentPolicy();
      var stored := MonitoredNames(p, current);
      var samples', rates' := StoreMonitored(p, samples, rates, current, now);
      var discovered' := if autoDiscover then discovered + stored else discovered;
      DiscoveredMonitored(p, discovered, current);
      samples, rates, discovered := samples', rates', discovered';
      assert CurrentPolicy() == p;
      return true;
    }

    /**
     * `_collect_session_stats`: only a successful reading from a non-empty reply without
     * an error status is appended, and the list is then pruned to the last day.
     */
    method CollectSessionStats(xml: Option<string>, parsed: Option<SessionStats>, now: real) returns (ok: bool)
      requires Valid()
      modifies this
      ensures Valid()
      ensures ok <==> AcceptedSession(xml, parsed).Some?
      ensures sessionStats == if ok then RecentSessions(old(sessionStats) + [parsed.value], now) else old(sessionStats)
      ensures CurrentPolicy() == old(CurrentPolicy()) && samples == old(samples) && rates == old(rates)
      ensures discovered == old(discovered)
      ensures authenticated == old(authenticated) && lastAuthCheck == old(lastAuthCheck)
    {
      if xml.None? || xml.value == "" {
        return false;
      }
      if Contains(xml.value, ErrorMarker) {
        return false;
      }
      if parsed.Some? && parsed.value.success {
        sessionStats := sessionStats + [parsed.value];
        sessionStats := Keep(sessionStats, (x: SessionStats) => x.timestamp > now - Day);
        return true;
      }
      return false;
    }

    /**
     * One round of `_monitoring_worker`: the authentication check when due, then, while
     * authenticated, both collections. `stop` says the worker leaves its loop.
     */
    method WorkerRound(failures: nat, r: Round) returns (failures': nat, stop: bool)
      requires Valid()
      requires failures < MaxFailures
      requires forall n :: n in r.current ==> r.current[n].name == n
      modifies this
      ensures Valid()
      ensures AuthState(authenticated, lastAuthCheck) == NextAuth(AuthState(old(authenticated), old(lastAuthCheck)), r)
      ensures failures' == FailuresAfter(failures, AuthState(old(authenticated), old(lastAuthCheck)), r)
      ensures failures' <= MaxFailures && (stop <==> failures' == MaxFailures)
      ensures !authenticated ==> samples == old(samples) && rates == old(rates) && sessionStats == old(sessionStats)
      ensures !authenticated ==> discovered == old(discovered)
      ensures authenticated && |r.current| == 0 ==> samples == old(samples) && rates == old(rates) && discovered == old(discovered)
      ensures authenticated && |r.current| > 0 ==>
        var stored := MonitoredNames(old(CurrentPolicy()), r.current);
        && samples == StoreSamples(old(samples), r.current, stored, r.now)
        && rates == StoreRates(Wrap64Heuristic, old(samples), old(rates), r.current, stored, r.now)
        && discovered == if autoDiscover then old(discovered) + stored else old(discovered)
      ensures authenticated ==>
        sessionStats == (if AcceptedSession(r.sessionXml, r.sessionParsed).Some?
          then RecentSessions(old(sessionStats) + [r.sessionParsed.value], r.now) else old(sessionStats))
      ensures Series(samples, rates, sessionStats, discovered)
        == RoundSeries(old(CurrentPolicy()), authenticated, Series(old(samples), old(rates), old(sessionStats), old(discovered)), r)
      ensures CurrentPolicy() == old(CurrentPolicy())
    {
      failures' := failures;
      var auth := NotDue;
      if lastAuthCheck.None? || r.now - lastAuthCheck.value > AuthInterval {
        var ok := CheckAuthentication(r.authReply, r.now);
        if !ok {
          auth := Failed;
          failures' := failures' + 1;
          if failures' >= MaxFailures {
            return failures', true;
          }
        } else {
          auth := Passed;
          failures' := 0;
        }
      }
      if authenticated {
        var success := CollectInterfaceStats(r.current, r.now);
        if !success {
          failures' := failures' + 1;
        } else {
          failures' := 0;
        }
        var _ := CollectSessionStats(r.sessionXml, r.sessionParsed, r.now);
      }
      RoundFailuresBounded(failures, auth, authenticated, |r.current| > 0);
      stop := failures' >= MaxFailures;
    }

    /**
     * `_monitoring_worker` over the rounds it gets to run: the failure count and the
     * number of rounds run are those of `Worker`, so it leaves the loop early exactly
     * when five failures have accumulated.
     */
    method MonitoringWorker(rounds: seq<Round>) returns (failures: nat, completed: nat)
      requires Valid()
      requires forall i, n :: 0 <= i < |rounds| && n in rounds[i].current ==> rounds[i].current[n].name == n
      modifies this
      ensures Valid()
      ensures (failures, completed) == Worker(0, AuthState(old(authenticated), old(lastAuthCheck)), rounds)
      ensures (AuthState(authenticated, lastAuthCheck), Series(samples, rates, sessionStats, discovered))
        == Run(old(CurrentPolicy()), AuthState(old(authenticated), old(lastAuthCheck)),
               Series(old(samples), old(rates), old(sessionStats), old(discovered)), rounds[..completed])
      ensures CurrentPolicy() == old(CurrentPolicy())
    {
      ghost var total := Worker(0, AuthState(authenticated, lastAuthCheck), rounds);
      ghost var p, s0 := CurrentPolicy(), AuthState(authenticated, lastAuthCheck);
      ghost var sr0 := Series(samples, rates, sessionStats, discovered);
      failures, completed := 0, 0;
      while completed < |rounds|
        invariant Valid()
        invariant completed <= |rounds| && failures < MaxFailures
        invariant total.0 == Worker(failures, AuthState(authenticated, lastAuthCheck), rounds[completed..]).0
        invariant total.1 == completed + Worker(failures, AuthState(authenticated, lastAuthCheck), rounds[completed..]).1
        invariant CurrentPolicy() == p
        invariant (AuthState(authenticated, lastAuthCheck), Series(samples, rates, sessionStats, discovered))
          == Run(p, s0, sr0, rounds[..completed])
        decreases |rounds| - completed
      {
        WorkerStep(failures, AuthState(authenticated, lastAuthCheck), rounds, completed, total);
        var stop;
        failures, stop := WorkerRound(failures, rounds[completed]);
        assert rounds[..completed + 1][..completed] == rounds[..completed];
        completed := completed + 1;
        if stop {
          return;
        }
      }
    }
  }
}
