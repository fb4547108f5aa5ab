/**
 * `InterfaceMonitor` of interface_monitor.py: the interface configurations it watches,
 * auto-discovery, and the per-interface sample and rate lists its collection step
 * updates. The client's replies arrive as parameters (None: the request returned
 * nothing); `now` is the one clock reading of a call.
 */
module LegacyInterfaceMonitor {
  import opened Wrappers
  import opened Parsers
  import opened InterfaceRates
  import opened InterfacePolicy
  import opened InterfaceParsers
  import opened InterfaceSeries

  /**
   * The configuration auto-discovery creates for a new interface, named by the display
   * name as the program computes it.
   */
  function AutoConfig(n: string): (c: InterfaceConfig)
    ensures c.name == n && c.enabled && c.displayName == DisplayNameAsWritten(n)
    ensures c.description == "Auto-discovered interface " + n
  {
    InterfaceConfig(n, DisplayNameAsWritten(n), true, "Auto-discovered interface " + n)
  }

  /** The names of `available` auto-discovery takes up: new ones the policy monitors. */
  function NewlyDiscovered(p: Policy, discovered: set<string>, available: set<string>): set<string> {
    set n | n in available && n !in discovered && ShouldMonitor(p, n)
  }

  /** A configuration for each of `names`. */
  function AutoConfigs(names: set<string>): (m: map<string, InterfaceConfig>)
    ensures m.Keys == names && forall n :: n in m ==> m[n] == AutoConfig(n)
  {
    map n | n in names :: AutoConfig(n)
  }

  /**
   * The decision for one name depends on the configurations only through that name's
   * own entry, so adding configurations for other names leaves it as it was.
   */
  lemma ShouldMonitorLocal(p: Policy, configs: map<string, InterfaceConfig>, n: string)
    requires n in configs <==> n in p.configs
    requires n in configs ==> configs[n] == p.configs[n]
    ensures ShouldMonitor(p.(configs := configs), n) == ShouldMonitor(p, n)
  {
  }

  /**
   * One round of the auto-discovery loop: a name is taken up when it is new and the
   * policy monitors it, and configured when it was not configured before.
   */
  lemma DiscoverStep(p: Policy, discovered: set<string>, configs: map<string, InterfaceConfig>,
                     done: set<string>, n: string)
    requires n !in done
    ensures var added := NewlyDiscovered(p, discovered, done);
      var now := n !in discovered && ShouldMonitor(p, n);
      && NewlyDiscovered(p, discovered, done + {n}) == added + (if now then {n} else {})
      && (now && n !in configs ==>
            configs + AutoConfigs(added + {n} - configs.Keys)
              == (configs + AutoConfigs(added - configs.Keys))[n := AutoConfig(n)])
      && (now && n in configs ==>
            configs + AutoConfigs(added + {n} - configs.Keys) == configs + AutoConfigs(added - configs.Keys))
    ensures var added := NewlyDiscovered(p, discovered, done);
      && (n in discovered + added <==> n in discovered)
      && (n in configs + AutoConfigs(added - configs.Keys) <==> n in configs)
      && (n in configs ==> (configs + AutoConfigs(added - configs.Keys))[n] == configs[n])
  {
    var added := NewlyDiscovered(p, discovered, done);
    assert n !in added;
    assert added + {n} - configs.Keys == if n in configs then added - configs.Keys else (added - configs.Keys) + {n};
  }

  class InterfaceMonitor {
    var interfaceConfigs: map<string, InterfaceConfig>
    var autoDiscover: bool
    var excludePatterns: seq<string>
    var firewallRule: Option<set<string>>
    var samples: SampleTable
    var rates: RateTable
    var sessionStats: seq<SessionStats>
    var discovered: set<string>
    const sampleInterval: int

    /** The settings `_should_monitor_interface` reads. */
    function CurrentPolicy(): Policy
      reads this
    {
      Policy(excludePatterns, firewallRule, interfaceConfigs, autoDiscover)
    }

    /**
     * Each configuration is filed under its own name, samples are kept only for
     * configured interfaces, and each interface's samples are snapshots of it.
     */
    ghost predicate Valid()
      reads this
    {
      && (forall n :: n in interfaceConfigs ==> interfaceConfigs[n].name == n)
      && samples.Keys <= interfaceConfigs.Keys
      && (forall n, x :: n in samples && x in samples[n] ==> x.name == n)
    }

    /** `__init__`: the settings from the firewall configuration, or the defaults; nothing stored yet. */
    constructor(fw: Option<FirewallInterfaces>)
      ensures Valid()
      ensures CurrentPolicy() == InitialPolicy(fw)
      ensures samples == map[] && rates == map[] && sessionStats == [] && discovered == {}
      ensures sampleInterval == 30
    {
      var p := InitialPolicy(fw);
      interfaceConfigs := p.configs;
      autoDiscover := p.autoDiscover;
      excludePatterns := p.excludePatterns;
      firewallRule := p.firewallRule;
      samples, rates, sessionStats, discovered := map[], map[], [], {};
      sampleInterval := 30;
    }

    /**
     * `_auto_discover_interfaces`: with auto-discovery on, every available name not yet
     * discovered that the policy monitors is discovered, and gets a configuration when
     * it has none; existing configurations are never replaced.
     */
    method AutoDiscoverInterfaces(available: set<string>)
      requires Valid()
      modifies this
      ensures Valid()
      ensures !old(autoDiscover) ==> discovered == old(discovered) && interfaceConfigs == old(interfaceConfigs)
      ensures old(autoDiscover) ==>
        var added := NewlyDiscovered(old(CurrentPolicy()), old(discovered), available);
        && discovered == old(discovered) + added
        && interfaceConfigs == old(interfaceConfigs) + AutoConfigs(added - old(interfaceConfigs).Keys)
      ensures autoDiscover == old(autoDiscover) && excludePatterns == old(excludePatterns)
      ensures firewallRule == old(firewallRule) && samples == old(samples) && rates == old(rates)
      ensures sessionStats == old(sessionStats)
    {
      if !autoDiscover {
        return;
      }
      ghost var p0, d0, c0 := CurrentPolicy(), discovered, interfaceConfigs;
      var todo := available;
      ghost var done: set<string> := {};
      while todo != {}
        invariant todo + done == available && todo !! done
        invariant discovered == d0 + NewlyDiscovered(p0, d0, done)
        invariant interfaceConfigs == c0 + AutoConfigs(NewlyDiscovered(p0, d0, done) - c0.Keys)
        invariant autoDiscover == p0.autoDiscover && excludePatterns == p0.excludePatterns
        invariant firewallRule == p0.firewallRule
        invariant samples == old(samples) && rates == old(rates) && sessionStats == old(sessionStats)
        decreases todo
      {
        var n :| n in todo;
        DiscoverStep(p0, d0, c0, done, n);
        ShouldMonitorLocal(p0, interfaceConfigs, n);
        if n !in discovered {
          if ShouldMonitor(CurrentPolicy(), n) {
            discovered := discovered + {n};
            if n !in interfaceConfigs {
              interfaceConfigs := interfaceConfigs[n := AutoConfig(n)];
            }
          }
        }
        todo, done := todo - {n}, done + {n};
      }
    }

    /**
     * `_collect_interface_stats`: the interfaces of the reply that are configured
     * (whether enabled or not) have their sample stored, with the 32-bit wrap rule; an
     * empty reply changes nothing.
     */
    method CollectInterfaceStats(reply: Option<Xml<seq<InterfaceEntry>>>, now: real)
      requires Valid()
      modifies this
      ensures Valid()
      ensures reply.None? ==> samples == old(samples) && rates == old(rates)
      ensures reply.Some? ==>
        var current := InterfaceStatistics(reply.value, now);
        var stored := current.Keys * old(interfaceConfigs).Keys;
        && samples == StoreSamples(old(samples), current, stored, now)
        && rates == StoreRates(Wrap32, old(samples), old(rates), current, stored, now)
      ensures interfaceConfigs == old(interfaceConfigs) && discovered == old(discovered)
      ensures CurrentPolicy() == old(CurrentPolicy()) && sessionStats == old(sessionStats)
    {
      if reply.None? {
        return;
      }
      var current := ParseInterfaceStatistics(reply.value, now);
      if reply.value.Parsed? {
        InterfaceStatisticsSamples(reply.value.content, now);
      }
      samples, rates := StoreAll(Wrap32, samples, rates, current, interfaceConfigs.Keys, now);
      StoreSamplesInvariant(old(samples), current, current.Keys * interfaceConfigs.Keys, now);
    }

    /**
     * `_collect_session_stats`: any reading the parser returns, failed ones included,
     * is appended and the list pruned to the last day.
     */
    method CollectSessionStats(reply: Option<Xml<SessionInfoDoc>>, now: real)
      modifies this
      ensures reply.Some? && SessionStatistics(reply.value, now).Some? ==>
        sessionStats == RecentSessions(old(sessionStats) + [SessionStatistics(reply.value, now).value], now)
      ensures reply.None? || SessionStatistics(reply.value, now).None? ==> sessionStats == old(sessionStats)
      ensures interfaceConfigs == old(interfaceConfigs) && discovered == old(discovered)
      ensures CurrentPolicy() == old(CurrentPolicy()) && samples == old(samples) && rates == old(rates)
    {
      if reply.None? {
        return;
      }
      var stats := ParseSessionStatistics(reply.value, now);
      if stats.Some? {
        sessionStats := sessionStats + [stats.value];
        sessionStats := Keep(sessionStats, (x: SessionStats) => x.timestamp > now - Day);
      }
    }
  }

  /**
   * A newly discovered "ethernet1/4" is configured with the display name "Port Port 4";
   * the corrected `DisplayName` would give "Port 4".
   */
  lemma AutoConfigPortName()
    ensures AutoConfig("ethernet1/4").displayName == "Port Port 4"
    ensures AutoConfig("ethernet1/4").displayName != DisplayName("ethernet1/4")
  {
    EthernetPortFour();
  }
}
