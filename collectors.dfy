/**
 * The multi-firewall collector: one `FirewallCollector` per enabled firewall, which
 * authenticates on demand and assembles one record per poll from three operational
 * replies, and the `MultiFirewallCollector` that owns the collectors, their stop events
 * and worker threads, the results queue and the metrics processor.
 *
 * A reply is None when `op` returned None or an empty text; the key-generation outcome,
 * the clock and the elapsed time of a poll are parameters.
 */
module Collectors {
  import opened Wrappers
  import opened Records
  import opened Parsers
  import opened Config
  import opened Scheduling

  /** The three operational replies of one poll. */
  datatype Replies = Replies(
    resources: Option<Xml<Option<CpuMatch>>>,
    monitor: Option<Xml<ResourceMonitor>>,
    session: Option<Xml<SessionInfo>>)

  datatype CollectionResult = CollectionResult(
    success: bool,
    firewallName: string,
    metrics: Option<Record>,
    error: Option<string>,
    timestamp: Option<real>)

  const AuthenticationFailed := "Authentication failed"

  // ---------------------------------------------------------------------------
  // The record of one poll
  // ---------------------------------------------------------------------------

  /** The system-resources group: `metrics.update(parse_cpu_from_top(xml))`. */
  function CpuGroup(replies: Replies): map<Field, real> {
    if replies.resources.Some? then CpuFromTop(replies.resources.value) else map[]
  }

  /** The data-plane CPU group, parsed from the resource-monitor reply. */
  function DpGroup(replies: Replies): map<Field, real> {
    if replies.monitor.Some? then DpCpuFromRm(replies.monitor.value) else map[]
  }

  /** The packet-buffer group, parsed from the same resource-monitor reply. */
  function PbufGroup(replies: Replies): map<Field, real> {
    if replies.monitor.Some? then PbufFromRm(replies.monitor.value) else map[]
  }

  /** The throughput group, parsed from the session-info reply. */
  function SessionGroup(replies: Replies): map<Field, real> {
    if replies.session.Some? then ThroughputFromSessionInfo(replies.session.value) else map[]
  }

  /** The timestamp and the firewall name added to a merged record. */
  function Stamped(m: Record, name: string, now: real): Record {
    m[Timestamp := Stamp(now)][FirewallName := Str(name)]
  }

  /** The four groups merged in order into an empty record. */
  function MergeGroups(cpu: map<Field, real>, dp: map<Field, real>, pbuf: map<Field, real>, session: map<Field, real>): Record {
    Merge(Merge(Merge(Merge(map[], cpu), dp), pbuf), session)
  }

  /**
   * The record `collect_metrics` builds: the groups merged in turn (a group whose reply
   * did not arrive is empty), then the timestamp and the firewall name.
   */
  function CollectorRecord(name: string, now: real, replies: Replies): (r: Record)
    ensures Timestamp in r && r[Timestamp] == Stamp(now)
    ensures FirewallName in r && r[FirewallName] == Str(name)
  {
    Stamped(MergeGroups(CpuGroup(replies), DpGroup(replies), PbufGroup(replies), SessionGroup(replies)), name, now)
  }

  /** Each group writes only its own fields. */
  lemma GroupKeys(replies: Replies)
    ensures CpuGroup(replies).Keys <= CpuKeys
    ensures DpGroup(replies).Keys <= DpKeys
    ensures PbufGroup(replies).Keys <= {PbufUtil}
    ensures SessionGroup(replies).Keys <= ThroughputKeys
  {
  }

  predicate DisjointGroups(cpu: map<Field, real>, dp: map<Field, real>, pbuf: map<Field, real>, session: map<Field, real>) {
    cpu.Keys <= CpuKeys && dp.Keys <= DpKeys && pbuf.Keys <= {PbufUtil} && session.Keys <= ThroughputKeys
  }

  /** The merged record holds exactly the groups' fields. */
  lemma MergeGroupsKeys(cpu: map<Field, real>, dp: map<Field, real>, pbuf: map<Field, real>, session: map<Field, real>)
    ensures MergeGroups(cpu, dp, pbuf, session).Keys == cpu.Keys + dp.Keys + pbuf.Keys + session.Keys
  {
  }

  /** A CPU field keeps its parsed value: no later group writes it. */
  lemma MergeGroupsCpu(cpu: map<Field, real>, dp: map<Field, real>, pbuf: map<Field, real>, session: map<Field, real>, k: Field)
    requires DisjointGroups(cpu, dp, pbuf, session) && k in cpu
    ensures MergeGroups(cpu, dp, pbuf, session)[k] == Num(cpu[k])
  {
    assert k !in dp && k !in pbuf && k !in session;
  }

  /** A data-plane field keeps its parsed value. */
  lemma MergeGroupsDp(cpu: map<Field, real>, dp: map<Field, real>, pbuf: map<Field, real>, session: map<Field, real>, k: Field)
    requires DisjointGroups(cpu, dp, pbuf, session) && k in dp
    ensures MergeGroups(cpu, dp, pbuf, session)[k] == Num(dp[k])
  {
    assert k !in pbuf && k !in session;
  }

  /** The packet-buffer field keeps its parsed value. */
  lemma MergeGroupsPbuf(cpu: map<Field, real>, dp: map<Field, real>, pbuf: map<Field, real>, session: map<Field, real>, k: Field)
    requires DisjointGroups(cpu, dp, pbuf, session) && k in pbuf
    ensures MergeGroups(cpu, dp, pbuf, session)[k] == Num(pbuf[k])
  {
    assert k !in session;
  }

  /** Stamping leaves every other field as it was. */
  lemma StampedKeeps(m: Record, name: string, now: real, k: Field)
    requires k in m && k != Timestamp && k != FirewallName
    ensures Stamped(m, name, now)[k] == m[k]
  {
  }

  /**
   * Stamping merged groups with disjoint fields: the record holds exactly the groups'
   * fields plus the timestamp and the name, and every field keeps its group's value.
   */
  lemma StampedGroups(cpu: map<Field, real>, dp: map<Field, real>, pbuf: map<Field, real>, session: map<Field, real>,
                      name: string, now: real)
    requires DisjointGroups(cpu, dp, pbuf, session)
    ensures Stamped(MergeGroups(cpu, dp, pbuf, session), name, now).Keys
      == cpu.Keys + dp.Keys + pbuf.Keys + session.Keys + {Timestamp, FirewallName}
    ensures forall k :: k in cpu ==> Stamped(MergeGroups(cpu, dp, pbuf, session), name, now)[k] == Num(cpu[k])
    ensures forall k :: k in dp ==> Stamped(MergeGroups(cpu, dp, pbuf, session), name, now)[k] == Num(dp[k])
    ensures forall k :: k in pbuf ==> Stamped(MergeGroups(cpu, dp, pbuf, session), name, now)[k] == Num(pbuf[k])
    ensures forall k :: k in session ==> Stamped(MergeGroups(cpu, dp, pbuf, session), name, now)[k] == Num(session[k])
  {
    MergeGroupsKeys(cpu, dp, pbuf, session);
    MergedGroupValues(cpu, dp, pbuf, session);
    StampedAll(MergeGroups(cpu, dp, pbuf, session), cpu, dp, pbuf, session, name, now);
  }

  /** Stamping a record made of four groups' values keeps those values and adds the two stamps. */
  lemma StampedAll(m: Record, cpu: map<Field, real>, dp: map<Field, real>, pbuf: map<Field, real>,
                   session: map<Field, real>, name: string, now: real)
    requires DisjointGroups(cpu, dp, pbuf, session)
    requires m.Keys == cpu.Keys + dp.Keys + pbuf.Keys + session.Keys
    requires forall k :: k in cpu ==> k in m && m[k] == Num(cpu[k])
    requires forall k :: k in dp ==> k in m && m[k] == Num(dp[k])
    requires forall k :: k in pbuf ==> k in m && m[k] == Num(pbuf[k])
    requires forall k :: k in session ==> k in m && m[k] == Num(session[k])
    ensures Stamped(m, name, now).Keys == cpu.Keys + dp.Keys + pbuf.Keys + session.Keys + {Timestamp, FirewallName}
    ensures forall k :: k in cpu ==> Stamped(m, name, now)[k] == Num(cpu[k])
    ensures forall k :: k in dp ==> Stamped(m, name, now)[k] == Num(dp[k])
    ensures forall k :: k in pbuf ==> Stamped(m, name, now)[k] == Num(pbuf[k])
    ensures forall k :: k in session ==> Stamped(m, name, now)[k] == Num(session[k])
  {
    StampedValues(m, cpu, name, now);
    StampedValues(m, dp, name, now);
    StampedValues(m, pbuf, name, now);
    StampedValues(m, session, name, now);
  }

  /** Each group's values are in the merged record. */
  lemma MergedGroupValues(cpu: map<Field, real>, dp: map<Field, real>, pbuf: map<Field, real>, session: map<Field, real>)
    requires DisjointGroups(cpu, dp, pbuf, session)
    ensures var m := MergeGroups(cpu, dp, pbuf, session);
      (forall k :: k in cpu ==> k in m && m[k] == Num(cpu[k]))
      && (forall k :: k in dp ==> k in m && m[k] == Num(dp[k]))
      && (forall k :: k in pbuf ==> k in m && m[k] == Num(pbuf[k]))
      && (forall k :: k in session ==> k in m && m[k] == Num(session[k]))
  {
    forall k | k in cpu
      ensures MergeGroups(cpu, dp, pbuf, session)[k] == Num(cpu[k])
    {
      MergeGroupsCpu(cpu, dp, pbuf, session, k);
    }
    forall k | k in dp
      ensures MergeGroups(cpu, dp, pbuf, session)[k] == Num(dp[k])
    {
      MergeGroupsDp(cpu, dp, pbuf, session, k);
    }
    forall k | k in pbuf
      ensures MergeGroups(cpu, dp, pbuf, session)[k] == Num(pbuf[k])
    {
      MergeGroupsPbuf(cpu, dp, pbuf, session, k);
    }
  }

  /** Stamping keeps the values of a group of fields other than the timestamp and the name. */
  lemma StampedValues(m: Record, g: map<Field, real>, name: string, now: real)
    requires forall k :: k in g ==> k in m && m[k] == Num(g[k])
    requires g.Keys !! {Timestamp, FirewallName}
    ensures forall k :: k in g ==> Stamped(m, name, now)[k] == Num(g[k])
  {
    forall k | k in g
      ensures Stamped(m, name, now)[k] == Num(g[k])
    {
      StampedKeeps(m, name, now, k);
    }
  }

  /**
   * A record holds exactly the fields its groups produced plus the timestamp and the
   * name, and each parsed field keeps the value its own parser gave.
   */
  lemma CollectorRecordValues(name: string, now: real, replies: Replies)
    ensures CollectorRecord(name, now, replies).Keys ==
      CpuGroup(replies).Keys + DpGroup(replies).Keys + PbufGroup(replies).Keys
      + SessionGroup(replies).Keys + {Timestamp, FirewallName}
    ensures forall k :: k in CpuGroup(replies) ==> CollectorRecord(name, now, replies)[k] == Num(CpuGroup(replies)[k])
    ensures forall k :: k in DpGroup(replies) ==> CollectorRecord(name, now, replies)[k] == Num(DpGroup(replies)[k])
    ensures forall k :: k in PbufGroup(replies) ==> CollectorRecord(name, now, replies)[k] == Num(PbufGroup(replies)[k])
    ensures forall k :: k in SessionGroup(replies) ==>
      CollectorRecord(name, now, replies)[k] == Num(SessionGroup(replies)[k])
  {
    GroupKeys(replies);
    StampedGroups(CpuGroup(replies), DpGroup(replies), PbufGroup(replies), SessionGroup(replies), name, now);
  }

  /** A failed system-resources `op` leaves every CPU field out of the record. */
  lemma FailedCpuOmitted(name: string, now: real, replies: Replies)
    requires replies.resources.None?
    ensures CpuUser !in CollectorRecord(name, now, replies) && CpuSystem !in CollectorRecord(name, now, replies)
    ensures CpuIdle !in CollectorRecord(name, now, replies) && MgmtCpu !in CollectorRecord(name, now, replies)
  {
    CollectorRecordValues(name, now, replies);
    GroupKeys(replies);
    assert CpuGroup(replies) == map[];
    CpuFieldsOutside(DpGroup(replies).Keys, PbufGroup(replies).Keys, SessionGroup(replies).Keys);
  }

  /** No CPU field lies in the other groups' key sets or among the stamps. */
  lemma CpuFieldsOutside(dp: set<Field>, pbuf: set<Field>, session: set<Field>)
    requires dp <= DpKeys && pbuf <= {PbufUtil} && session <= ThroughputKeys
    ensures CpuUser !in dp + pbuf + session + {Timestamp, FirewallName}
    ensures CpuSystem !in dp + pbuf + session + {Timestamp, FirewallName}
    ensures CpuIdle !in dp + pbuf + session + {Timestamp, FirewallName}
    ensures MgmtCpu !in dp + pbuf + session + {Timestamp, FirewallName}
  {
  }

  /**
   * A parsed resource-monitor reply always gives the four data-plane fields and the
   * packet-buffer field, whatever happened to the other two requests.
   */
  lemma MonitorFieldsPresent(name: string, now: real, replies: Replies)
    requires replies.monitor.Some? && replies.monitor.value.Parsed?
    ensures DpKeys + {PbufUtil} <= CollectorRecord(name, now, replies).Keys
  {
    CollectorRecordValues(name, now, replies);
    assert DpGroup(replies).Keys == DpKeys;
    assert PbufGroup(replies).Keys == {PbufUtil};
  }

  // ---------------------------------------------------------------------------
  // One firewall
  // ---------------------------------------------------------------------------

  class FirewallCollector {
    const name: string
    const config: FirewallConfig
    var authenticated: bool
    var lastPollTime: Option<real>
    var pollCount: nat

    constructor(name: string, config: FirewallConfig)
      ensures this.name == name && this.config == config
      ensures !authenticated && lastPollTime.None? && pollCount == 0
    {
      this.name := name;
      this.config := config;
      authenticated := false;
      lastPollTime := None;
      pollCount := 0;
    }

    /** `authenticate`: a successful key generation marks the collector authenticated. */
    method Authenticate(keygenOk: bool) returns (success: bool)
      modifies this
      ensures success == keygenOk
      ensures authenticated == (old(authenticated) || keygenOk)
      ensures pollCount == old(pollCount) && lastPollTime == old(lastPollTime)
    {
      success := keygenOk;
      if success {
        authenticated := true;
      }
    }

    /**
     * `collect_metrics`: an unauthenticated collector first authenticates and gives up
     * with "Authentication failed" (nothing else changes) when that fails. Otherwise the
     * poll is counted, each group whose reply arrived is merged, and the record is
     * returned with the poll's timestamp, which also becomes the last poll time.
     */
    method CollectMetrics(keygenOk: bool, now: real, replies: Replies) returns (result: CollectionResult)
      modifies this
      ensures !old(authenticated) && !keygenOk ==>
        && result == CollectionResult(false, name, None, Some(AuthenticationFailed), None)
        && !authenticated && pollCount == old(pollCount) && lastPollTime == old(lastPollTime)
      ensures old(authenticated) || keygenOk ==>
        && result == CollectionResult(true, name, Some(CollectorRecord(name, now, replies)), None, Some(now))
        && authenticated && pollCount == old(pollCount) + 1 && lastPollTime == Some(now)
    {
      if !authenticated {
        var ok := Authenticate(keygenOk);
        if !ok {
          return CollectionResult(false, name, None, Some(AuthenticationFailed), None);
        }
      }
      pollCount := pollCount + 1;
      // Each group is empty when its request returned nothing.
      var metrics := Merge(map[], CpuGroup(replies));
      metrics := Merge(metrics, DpGroup(replies));
      metrics := Merge(metrics, PbufGroup(replies));
      metrics := Merge(metrics, SessionGroup(replies));
      metrics := metrics[Timestamp := Stamp(now)];
      metrics := metrics[FirewallName := Str(name)];
      lastPollTime := Some(now);
      result := CollectionResult(true, name, Some(metrics), None, Some(now));
    }
  }

  // ---------------------------------------------------------------------------
  // The metrics processor's rule
  // ---------------------------------------------------------------------------

  /** `result.success and result.metrics`: only successful results with a non-empty record are stored. */
  predicate ShouldStore(r: CollectionResult) {
    r.success && r.metrics.Some? && r.metrics.value != map[]
  }

  /** Every record handed on holds at least one field. */
  predicate NonEmptyRecords(rows: seq<(string, Record)>) {
    forall i :: 0 <= i < |rows| ==> rows[i].1 != map[]
  }

  /** What the processor hands to the database for a sequence of results, in order. */
  function Stored(results: seq<CollectionResult>): (r: seq<(string, Record)>)
    ensures |r| <= |results|
    ensures NonEmptyRecords(r)
  {
    if results == [] then []
    else
      var last := results[|results| - 1];
      Stored(results[..|results| - 1]) + (if ShouldStore(last) then [(last.firewallName, last.metrics.value)] else [])
  }

  lemma {:induction false} StoredAppend(a: seq<CollectionResult>, b: seq<CollectionResult>)
    ensures Stored(a + b) == Stored(a) + Stored(b)
    decreases |b|
  {
    if b == [] {
      assert a + b == a;
    } else {
      var init, last := b[..|b| - 1], b[|b| - 1];
      var row := if ShouldStore(last) then [(last.firewallName, last.metrics.value)] else [];
      StoredAppend(a, init);
      assert (a + b)[..|a + b| - 1] == a + init && (a + b)[|a + b| - 1] == last;
      assert Stored(a + b) == Stored(a + init) + row;
      assert Stored(b) == Stored(init) + row;
      AppendAssoc(Stored(a), Stored(init), row);
    }
  }

  /**
   * Every stored row comes from a successful result with a non-empty record, under that
   * result's firewall name; a failed result never reaches the database.
   */
  lemma {:induction false} StoredOnlySuccesses(results: seq<CollectionResult>)
    ensures forall x :: x in Stored(results) ==>
      exists i :: (0 <= i < |results| && ShouldStore(results[i])
        && x == (results[i].firewallName, results[i].metrics.value))
  {
    if results != [] {
      var init := results[..|results| - 1];
      StoredOnlySuccesses(init);
      forall x | x in Stored(results)
        ensures exists i :: (0 <= i < |results| && ShouldStore(results[i])
          && x == (results[i].firewallName, results[i].metrics.value))
      {
        if x in Stored(init) {
          var i :| 0 <= i < |init| && ShouldStore(init[i]) && x == (init[i].firewallName, init[i].metrics.value);
          assert results[i] == init[i];
        } else {
          assert results[|results| - 1] == results[|results| - 1];
        }
      }
    }
  }

  /** The positions of the results the processor hands to the database. */
  function Qualifying(results: seq<CollectionResult>): set<int> {
    set i | 0 <= i < |results| && ShouldStore(results[i])
  }

  /** One more result adds its own position when it qualifies. */
  lemma QualifyingStep(results: seq<CollectionResult>)
    requires results != []
    ensures var n := |results|;
      Qualifying(results) == Qualifying(results[..n - 1]) + (if ShouldStore(results[n - 1]) then {n - 1} else {})
    ensures |results| - 1 !in Qualifying(results[..|results| - 1])
  {
    var n := |results|;
    var init := results[..n - 1];
    assert forall i :: 0 <= i < n - 1 ==> results[i] == init[i];
  }

  /** Every result that qualifies is stored: the count of stored rows equals the count of such results. */
  lemma {:induction false} StoredCount(results: seq<CollectionResult>)
    ensures |Stored(results)| == |Qualifying(results)|
  {
    if results != [] {
      StoredCount(results[..|results| - 1]);
      QualifyingStep(results);
    }
  }

  // ---------------------------------------------------------------------------
  // The multi-firewall collector
  // ---------------------------------------------------------------------------

  /** A `threading.Event`. */
  class StopEvent {
    var isSet: bool

    constructor()
      ensures !isSet
    {
      isSet := false;
    }

    /** `Event.set()`. */
    method Set()
      modifies this
      ensures isSet
    {
      isSet := true;
    }
  }

  /** A started worker thread: the firewall it polls and the stop event it watches. */
  class Worker {
    const firewall: string
    const stop: StopEvent
    var alive: bool

    constructor Start(firewall: string, stop: StopEvent)
      ensures this.firewall == firewall && this.stop == stop && alive
    {
      this.firewall := firewall;
      this.stop := stop;
      alive := true;
    }
  }

  /** One entry of `get_collector_status`. */
  datatype CollectorStatus = CollectorStatus(
    authenticated: bool,
    lastPoll: Option<real>,
    pollCount: nat,
    threadAlive: bool,
    host: string,
    interval: int,
    enabled: bool)

  predicate Injective<K, V(==)>(m: map<K, V>) {
    forall a, b :: a in m && b in m && a != b ==> m[a] != m[b]
  }

  /** A collector as `FirewallCollector(config)` leaves it: unauthenticated, never polled. */
  predicate NewCollector(c: FirewallCollector, name: string, config: FirewallConfig)
    reads c
  {
    c.name == name && c.config == config && !c.authenticated && c.pollCount == 0 && c.lastPollTime.None?
  }

  /**
   * The loop of `MultiFirewallCollector.__init__`: a fresh collector and stop event for
   * each enabled firewall, and its registration with the database.
   */
  method BuildCollectors(configs: map<string, FirewallConfig>)
    returns (cs: map<string, FirewallCollector>, es: map<string, StopEvent>, reg: map<string, string>)
    ensures forall n :: n in cs <==> n in configs && configs[n].enabled
    ensures es.Keys == cs.Keys && reg.Keys == cs.Keys
    ensures forall n :: n in cs ==> fresh(cs[n]) && NewCollector(cs[n], n, configs[n])
    ensures forall n :: n in es ==> fresh(es[n]) && !es[n].isSet
    ensures forall n :: n in reg ==> reg[n] == configs[n].host
  {
    cs, es, reg := map[], map[], map[];
    var todo := configs.Keys;
    while todo != {}
      invariant todo <= configs.Keys
      invariant forall n :: n in cs <==> n in configs && n !in todo && configs[n].enabled
      invariant es.Keys == cs.Keys && reg.Keys == cs.Keys
      invariant forall n :: n in cs ==> fresh(cs[n]) && NewCollector(cs[n], n, configs[n])
      invariant forall n :: n in es ==> fresh(es[n]) && !es[n].isSet
      invariant forall n :: n in reg ==> reg[n] == configs[n].host
      decreases |todo|
    {
      var n :| n in todo;
      todo := todo - {n};
      if configs[n].enabled {
        var c := new FirewallCollector(n, configs[n]);
        var e := new StopEvent();
        cs := cs[n := c];
        es := es[n := e];
        reg := reg[n := configs[n].host];
      }
    }
  }

  /** One collector per enabled firewall, built from that firewall's configuration. */
  ghost predicate Registry(configs: map<string, FirewallConfig>, collectors: map<string, FirewallCollector>) {
    && (forall n :: n in collectors <==> n in configs && configs[n].enabled)
    && (forall n :: n in collectors ==> collectors[n].name == n && collectors[n].config == configs[n])
  }

  /** Each worker polls its own firewall and watches that firewall's current stop event. */
  ghost predicate Watching(threads: map<string, Worker>, stopEvents: map<string, StopEvent>) {
    forall n :: n in threads ==> threads[n].firewall == n && n in stopEvents && threads[n].stop == stopEvents[n]
  }

  /** Replacing one firewall's stop event and worker keeps the stop events and workers consistent. */
  lemma RestartKeeps(collectors: map<string, FirewallCollector>, stopEvents: map<string, StopEvent>,
                     threads: map<string, Worker>, name: string, e: StopEvent, w: Worker)
    requires stopEvents.Keys == collectors.Keys && threads.Keys <= collectors.Keys && Watching(threads, stopEvents)
    requires name in collectors && w.firewall == name && w.stop == e
    ensures stopEvents[name := e].Keys == collectors.Keys && threads[name := w].Keys <= collectors.Keys
    ensures Watching(threads[name := w], stopEvents[name := e])
  {
  }

  class MultiFirewallCollector {
    var configs: map<string, FirewallConfig>
    var collectors: map<string, FirewallCollector>
    var stopEvents: map<string, StopEvent>
    var threads: map<string, Worker>
    /** The results queue (unbounded, as constructed). */
    var queue: seq<CollectionResult>
    /** The (name, record) pairs handed to the database, in order. */
    var inserted: seq<(string, Record)>
    /** The (name, host) pairs registered with the database. */
    var registered: map<string, string>

    /**
     * One collector and one stop event per enabled firewall, each collector built from
     * that firewall's configuration, no two names sharing an object; a worker watches
     * its firewall's current stop event.
     */
    ghost predicate Valid()
      reads this
    {
      && Registry(configs, collectors)
      && stopEvents.Keys == collectors.Keys
      && threads.Keys <= collectors.Keys
      && Watching(threads, stopEvents)
    }

    /** `__init__`: a fresh collector and stop event for every enabled firewall, registered with the database. */
    constructor(configs: map<string, FirewallConfig>)
      ensures Valid()
      ensures this.configs == configs
      ensures forall n :: n in collectors ==> fresh(collectors[n])
      ensures forall n :: n in collectors ==>
        !collectors[n].authenticated && collectors[n].pollCount == 0 && collectors[n].lastPollTime.None?
      ensures forall n :: n in stopEvents ==> fresh(stopEvents[n]) && !stopEvents[n].isSet
      ensures threads == map[] && queue == [] && inserted == []
      ensures registered.Keys == collectors.Keys
      ensures forall n :: n in registered ==> registered[n] == configs[n].host
    {
      var cs, es, reg := BuildCollectors(configs);
      this.configs := configs;
      collectors := cs;
      stopEvents := es;
      threads := map[];
      queue := [];
      inserted := [];
      registered := reg;
    }

    /**
     * One iteration of `_collection_worker` for `name`: poll the collector, queue the
     * result, and return the sleep before the next poll.
     */
    method WorkerIteration(name: string, keygenOk: bool, now: real, replies: Replies, elapsed: real)
      returns (result: CollectionResult, sleep: real)
      requires Valid() && name in collectors
      modifies this, collectors[name]
      ensures Valid()
      ensures collectors == old(collectors) && configs == old(configs) && stopEvents == old(stopEvents)
      ensures queue == old(queue) + [result]
      ensures result.firewallName == name
      ensures result.success <==> old(collectors[name].authenticated) || keygenOk
      ensures result.success ==> result == CollectionResult(true, name, Some(CollectorRecord(name, now, replies)), None, Some(now))
      ensures !result.success ==> result == CollectionResult(false, name, None, Some(AuthenticationFailed), None)
      ensures collectors[name].authenticated == result.success
      ensures collectors[name].pollCount == old(collectors[name].pollCount) + (if result.success then 1 else 0)
      ensures collectors[name].lastPollTime == if result.success then Some(now) else old(collectors[name].lastPollTime)
      ensures sleep == SleepTime(configs[name].pollInterval as real, elapsed)
      ensures threads == old(threads) && inserted == old(inserted) && registered == old(registered)
    {
      var collector := collectors[name];
      result := collector.CollectMetrics(keygenOk, now, replies);
      queue := queue + [result];
      sleep := SleepTime(configs[name].pollInterval as real, elapsed);
    }

    /**
     * One iteration of `_metrics_processor`: take the oldest result, if any, and hand it
     * to the database only when it succeeded with a non-empty record.
     */
    method ProcessNext()
      modifies this
      ensures old(queue) == [] ==> queue == [] && inserted == old(inserted)
      ensures old(queue) != [] ==> queue == old(queue)[1..] && inserted == old(inserted) + Stored(old(queue)[..1])
      ensures configs == old(configs) && collectors == old(collectors) && stopEvents == old(stopEvents)
      ensures threads == old(threads) && registered == old(registered)
    {
      if queue != [] {
        var result := queue[0];
        queue := queue[1..];
        assert [result][..0] == [];
        if ShouldStore(result) {
          inserted := inserted + [(result.firewallName, result.metrics.value)];
        }
      }
    }

    /** The processor run until the queue is empty: exactly `Stored` of what was queued is written. */
    method ProcessAll()
      modifies this
      ensures queue == []
      ensures inserted == old(inserted) + Stored(old(queue))
      ensures configs == old(configs) && collectors == old(collectors) && stopEvents == old(stopEvents)
      ensures threads == old(threads) && registered == old(registered)
    {
      ghost var k := 0;
      while queue != []
        invariant 0 <= k <= |old(queue)| && queue == old(queue)[k..]
        invariant inserted == old(inserted) + Stored(old(queue)[..k])
        invariant configs == old(configs) && collectors == old(collectors) && stopEvents == old(stopEvents)
        invariant threads == old(threads) && registered == old(registered)
        decreases |queue|
      {
        ghost var q := old(queue);
        assert queue[..1] == q[k..k + 1];
        StoredAppend(q[..k], q[k..k + 1]);
        assert q[..k] + q[k..k + 1] == q[..k + 1];
        ProcessNext();
        k := k + 1;
      }
      assert old(queue)[..k] == old(queue);
    }

    /** `get_collector_status`: one entry per collector; a name without a thread reports no live thread. */
    function Status(): (r: map<string, CollectorStatus>)
      reads this, collectors.Values, threads.Values
      ensures r.Keys == collectors.Keys
      ensures forall n :: n in r ==> (r[n].pollCount == collectors[n].pollCount
        && r[n].authenticated == collectors[n].authenticated && r[n].lastPoll == collectors[n].lastPollTime)
      ensures forall n :: n in r ==> (r[n].threadAlive <==> n in threads && threads[n].alive)
      ensures forall n :: n in r ==> (r[n].host == collectors[n].config.host
        && r[n].interval == collectors[n].config.pollInterval && r[n].enabled == collectors[n].config.enabled)
    {
      map n | n in collectors ::
        var c := collectors[n];
        CollectorStatus(c.authenticated, c.lastPollTime, c.pollCount,
          n in threads && threads[n].alive, c.config.host, c.config.pollInterval, c.config.enabled)
    }

    /**
     * `restart_collector`: false for an unknown name. Otherwise the old stop event is set,
     * and a fresh event and a freshly started worker replace that name's entries.
     */
    method RestartCollector(name: string) returns (r: bool)
      requires Valid()
      modifies this, if name in stopEvents then {stopEvents[name]} else {}
      ensures Valid()
      ensures r <==> name in collectors
      ensures configs == old(configs) && collectors == old(collectors)
      ensures queue == old(queue) && inserted == old(inserted) && registered == old(registered)
      ensures !r ==> stopEvents == old(stopEvents) && threads == old(threads)
      ensures r ==> name in old(stopEvents) && old(stopEvents[name]).isSet
      ensures r ==> name in stopEvents && fresh(stopEvents[name]) && !stopEvents[name].isSet
      ensures r ==> stopEvents == old(stopEvents)[name := stopEvents[name]]
      ensures r ==> name in threads && fresh(threads[name]) && threads[name].alive
      ensures r ==> threads == old(threads)[name := threads[name]]
    {
      if name !in collectors {
        return false;
      }
      stopEvents[name].Set();
      StartWorker(name);
      return true;
    }

    /** A fresh stop event for `name` and a worker thread started on it. */
    method StartWorker(name: string)
      requires Valid() && name in collectors
      modifies this
      ensures Valid()
      ensures name in stopEvents && fresh(stopEvents[name]) && !stopEvents[name].isSet
      ensures stopEvents == old(stopEvents)[name := stopEvents[name]]
      ensures name in threads && fresh(threads[name]) && threads[name].alive
      ensures threads == old(threads)[name := threads[name]]
      ensures configs == old(configs) && collectors == old(collectors)
      ensures queue == old(queue) && inserted == old(inserted) && registered == old(registered)
    {
      var e := new StopEvent();
      var w := new Worker.Start(name, e);
      RestartKeeps(collectors, stopEvents, threads, name, e, w);
      stopEvents := stopEvents[name := e];
      threads := threads[name := w];
    }
  }
}
