/**
 * Which interfaces an `InterfaceMonitor` watches and what it calls them: the interface
 * configurations it starts from, the selection rule `_should_monitor_interface`
 * (exclusion patterns, then the firewall configuration's own rule, then the configured
 * enabled flag, then auto-discovery) and `_generate_display_name`. interface_monitor.py
 * and interface_monitor_fixed.py share all of this.
 */
module InterfacePolicy {
  import opened Wrappers
  import opened Text

  /** `InterfaceConfig`. */
  datatype InterfaceConfig = InterfaceConfig(name: string, displayName: string, enabled: bool, description: string)

  const DefaultExcludes: seq<string> := ["mgmt", "loopback", "tunnel"]

  /** `_create_default_interface_configs`: three enabled ports and two disabled aggregates. */
  const DefaultConfigs: seq<InterfaceConfig> := [
    InterfaceConfig("ethernet1/1", "Internet/WAN", true, "Primary internet connection"),
    InterfaceConfig("ethernet1/2", "LAN/Internal", true, "Internal network connection"),
    InterfaceConfig("ethernet1/3", "DMZ", true, "DMZ network connection"),
    InterfaceConfig("ae1", "Aggregate 1", false, "Link aggregation group 1"),
    InterfaceConfig("ae2", "Aggregate 2", false, "Link aggregation group 2")]

  /**
   * The interface attributes of an enhanced firewall configuration (the class itself is
   * not part of this model): detailed configurations, a plain list of names, its display
   * namer, `auto_discover_interfaces`, `exclude_interfaces` and its own
   * `should_monitor_interface` rule, given as the set of names it accepts. An absent
   * optional attribute is None; an absent list is empty.
   */
  datatype FirewallInterfaces = FirewallInterfaces(
    interfaceConfigs: seq<InterfaceConfig>,
    monitorInterfaces: seq<string>,
    namer: Option<string -> string>,
    autoDiscover: Option<bool>,
    excludeInterfaces: Option<seq<string>>,
    shouldMonitor: Option<set<string>>)

  // ---------------------------------------------------------------------------
  // create_interface_configs_from_firewall_config

  function Names(cs: seq<InterfaceConfig>): (r: seq<string>)
    ensures |r| == |cs| && forall i :: 0 <= i < |cs| ==> r[i] == cs[i].name
  {
    seq(|cs|, i requires 0 <= i < |cs| => cs[i].name)
  }

  /** The configuration made for a plain interface name. */
  function Monitored(name: string, namer: Option<string -> string>): InterfaceConfig {
    InterfaceConfig(name, if namer.Some? then namer.value(name) else name, true, "Monitored interface " + name)
  }

  /**
   * The list `create_interface_configs_from_firewall_config` builds: the detailed
   * configurations as given, then one enabled configuration per listed name that no
   * configuration in the list has yet. It starts with the detailed ones, names every
   * listed interface, and adds no name twice.
   */
  function ConfigsFor(detailed: seq<InterfaceConfig>, names: seq<string>, namer: Option<string -> string>)
    : (r: seq<InterfaceConfig>)
    ensures |detailed| <= |r| <= |detailed| + |names| && r[..|detailed|] == detailed
    ensures forall i :: 0 <= i < |names| ==> names[i] in Names(r)
    ensures forall i :: |detailed| <= i < |r| ==> r[i].enabled && r[i].name in names && r[i].name !in Names(r[..i])
  {
    if names == [] then detailed
    else
      var n := names[|names| - 1];
      var cs := ConfigsFor(detailed, names[..|names| - 1], namer);
      assert forall i :: 0 <= i < |names| - 1 ==> names[i] == names[..|names| - 1][i];
      if n in Names(cs) then cs
      else
        var r := cs + [Monitored(n, namer)];
        assert r[..|cs|] == cs && r[..|detailed|] == cs[..|detailed|];
        assert forall i :: 0 <= i < |cs| ==> r[..i] == cs[..i];
        assert Names(r) == Names(cs) + [n];
        r
  }

  /** `create_interface_configs_from_firewall_config`: the loop over the listed names. */
  method CreateInterfaceConfigs(fw: FirewallInterfaces) returns (configs: seq<InterfaceConfig>)
    ensures configs == ConfigsFor(fw.interfaceConfigs, fw.monitorInterfaces, fw.namer)
  {
    configs := fw.interfaceConfigs;
    var i := 0;
    while i < |fw.monitorInterfaces|
      invariant 0 <= i <= |fw.monitorInterfaces|
      invariant configs == ConfigsFor(fw.interfaceConfigs, fw.monitorInterfaces[..i], fw.namer)
    {
      var name := fw.monitorInterfaces[i];
      assert fw.monitorInterfaces[..i + 1][..i] == fw.monitorInterfaces[..i];
      var existing := Names(configs);
      if name !in existing {
        configs := configs + [Monitored(name, fw.namer)];
      }
      i := i + 1;
    }
    assert fw.monitorInterfaces[..i] == fw.monitorInterfaces;
  }

  /**
   * `{cfg.name: cfg for cfg in configs}`: one entry per configured name, holding a
   * configuration of that name from the list; the last one when a name repeats.
   */
  function ByName(cs: seq<InterfaceConfig>): (m: map<string, InterfaceConfig>)
    ensures forall n :: n in m <==> n in Names(cs)
    ensures forall n :: n in m ==> m[n].name == n && m[n] in cs
    ensures cs != [] ==> m[cs[|cs| - 1].name] == cs[|cs| - 1]
  {
    if cs == [] then map[]
    else
      var init := cs[..|cs| - 1];
      var last := cs[|cs| - 1];
      assert cs == init + [last];
      assert Names(cs) == Names(init) + [last.name];
      ByName(init)[last.name := last]
  }

  // ---------------------------------------------------------------------------
  // _should_monitor_interface

  /** The settings `_should_monitor_interface` reads. */
  datatype Policy = Policy(
    excludePatterns: seq<string>,
    firewallRule: Option<set<string>>,
    configs: map<string, InterfaceConfig>,
    autoDiscover: bool)

  /** The exclusion loop: some pattern occurs in the name, ignoring case. */
  function Excluded(patterns: seq<string>, name: string): (b: bool)
    ensures b <==> exists i :: 0 <= i < |patterns| && Contains(Lower(name), Lower(patterns[i]))
  {
    if patterns == [] then false
    else
      assert forall i :: 1 <= i < |patterns| ==> patterns[i] == patterns[1..][i - 1];
      Contains(Lower(name), Lower(patterns[0])) || Excluded(patterns[1..], name)
  }

  /**
   * `_should_monitor_interface`: an excluded name is never monitored; otherwise the
   * firewall configuration's rule decides when it has one, then the enabled flag of the
   * name's configuration, and a name without either is monitored only under
   * auto-discovery.
   */
  function ShouldMonitor(p: Policy, name: string): (b: bool)
    ensures Excluded(p.excludePatterns, name) ==> !b
    ensures !Excluded(p.excludePatterns, name) && p.firewallRule.Some? ==> (b <==> name in p.firewallRule.value)
    ensures !Excluded(p.excludePatterns, name) && p.firewallRule.None? && name in p.configs ==>
      b == p.configs[name].enabled
    ensures !Excluded(p.excludePatterns, name) && p.firewallRule.None? && name !in p.configs ==>
      b == p.autoDiscover
  {
    if Excluded(p.excludePatterns, name) then false
    else if p.firewallRule.Some? then name in p.firewallRule.value
    else if name in p.configs then p.configs[name].enabled
    else p.autoDiscover
  }

  /**
   * The monitor's settings as its constructor chooses them: from the firewall
   * configuration when there is one (auto-discovery off and the default patterns unless
   * it says otherwise), else the default configurations with auto-discovery on.
   */
  function InitialPolicy(fw: Option<FirewallInterfaces>): Policy
  {
    match fw
    case None => Policy(DefaultExcludes, None, ByName(DefaultConfigs), true)
    case Some(f) =>
      Policy(f.excludeInterfaces.GetOr(DefaultExcludes), f.shouldMonitor,
        ByName(ConfigsFor(f.interfaceConfigs, f.monitorInterfaces, f.namer)), f.autoDiscover.GetOr(false))
  }

  /**
   * Exclusion is case-insensitive and beats everything else: "MGMT0" is not monitored
   * even when it is configured and enabled and the firewall's own rule accepts it.
   */
  lemma ExclusionBeatsConfiguration(configs: map<string, InterfaceConfig>)
    requires "MGMT0" in configs && configs["MGMT0"].enabled
    ensures !ShouldMonitor(Policy(DefaultExcludes, Some({"MGMT0"}), configs, true), "MGMT0")
  {
    var low := Lower("MGMT0");
    assert low == "mgmt0";
    LowerUnchanged("mgmt");
    assert StartsWith(low, "mgmt");
    assert Contains(low, Lower(DefaultExcludes[0]));
  }

  /** The default patterns are already lower case, so they are matched as written. */
  lemma ExcludedByDefaults(name: string)
    ensures Excluded(DefaultExcludes, name) <==>
      Contains(Lower(name), "mgmt") || Contains(Lower(name), "loopback") || Contains(Lower(name), "tunnel")
  {
    LowerUnchanged("mgmt");
    LowerUnchanged("loopback");
    LowerUnchanged("tunnel");
    var rest := DefaultExcludes[1..];
    assert rest == ["loopback", "tunnel"];
    assert rest[1..] == ["tunnel"];
    assert rest[1..][1..] == [];
    assert Excluded(DefaultExcludes, name) == (Contains(Lower(name), "mgmt") || Excluded(rest, name));
    assert Excluded(rest, name) == (Contains(Lower(name), "loopback") || Excluded(rest[1..], name));
    assert Excluded(rest[1..], name) == (Contains(Lower(name), "tunnel") || Excluded([], name));
  }

  /** A name whose lower-cased form has no 'm', 'l' or 'u' matches none of the default patterns. */
  lemma NotExcludedByDefaults(name: string)
    requires 'm' !in Lower(name) && 'l' !in Lower(name) && 'u' !in Lower(name)
    ensures !Excluded(DefaultExcludes, name)
  {
    ExcludedByDefaults(name);
    var low := Lower(name);
    if Contains(low, "mgmt") { ContainsChar(low, "mgmt", 0); }
    if Contains(low, "loopback") { ContainsChar(low, "loopback", 0); }
    if Contains(low, "tunnel") { ContainsChar(low, "tunnel", 1); }
  }

  lemma DefaultNames()
    ensures Names(DefaultConfigs) == ["ethernet1/1", "ethernet1/2", "ethernet1/3", "ae1", "ae2"]
  {
  }

  /** The default aggregate "ae1" is looked up as configured. */
  lemma DefaultAggregate()
    ensures ByName(DefaultConfigs)["ae1"] == DefaultConfigs[3]
  {
    DefaultNames();
    assert ByName(DefaultConfigs)["ae1"] in DefaultConfigs;
  }

  /** A configuration whose name no other configuration shares is the one looked up. */
  lemma ByNameUnique(cs: seq<InterfaceConfig>, i: int)
    requires 0 <= i < |cs| && forall k :: 0 <= k < |cs| && k != i ==> cs[k].name != cs[i].name
    ensures ByName(cs)[cs[i].name] == cs[i]
  {
    assert cs[i].name in Names(cs);
  }

  lemma DefaultPortNameUnique()
    ensures forall k :: 0 <= k < |DefaultConfigs| && k != 0 ==> DefaultConfigs[k].name != DefaultConfigs[0].name
  {
    var cs := DefaultConfigs;
    assert cs[1].name[10] == '2' && cs[2].name[10] == '3' && cs[0].name[10] == '1';
    assert |cs[3].name| == 3 && |cs[4].name| == 3;
  }

  /** The default port "ethernet1/1" is looked up as configured. */
  lemma DefaultPort()
    ensures ByName(DefaultConfigs)[DefaultConfigs[0].name] == DefaultConfigs[0]
  {
    DefaultPortNameUnique();
    ByNameUnique(DefaultConfigs, 0);
  }

  /** "ethernet1/7" has no default configuration. */
  lemma DefaultUnconfigured()
    ensures "ethernet1/7" !in ByName(DefaultConfigs)
  {
    DefaultNames();
    assert "ethernet1/7"[10] == '7';
    assert "ethernet1/1"[10] == '1' && "ethernet1/2"[10] == '2' && "ethernet1/3"[10] == '3';
    assert |"ae1"| == 3 && |"ae2"| == 3;
    Unnamed(DefaultConfigs, "ethernet1/7");
  }

  /** A name no configuration carries has no entry. */
  lemma Unnamed(cs: seq<InterfaceConfig>, n: string)
    requires n !in Names(cs)
    ensures n !in ByName(cs)
  {
  }

  /** A lower-case name without 'm', 'l' or 'u' is not excluded by the default patterns. */
  lemma PlainNameNotExcluded(name: string)
    requires forall i :: 0 <= i < |name| ==> !('A' <= name[i] <= 'Z')
    requires 'm' !in name && 'l' !in name && 'u' !in name
    ensures !Excluded(DefaultExcludes, name)
  {
    LowerUnchanged(name);
    NotExcludedByDefaults(name);
  }

  /** With no firewall configuration, the default port "ethernet1/1" is monitored. */
  lemma DefaultPortMonitored()
    ensures DefaultConfigs[0].name == "ethernet1/1"
    ensures ShouldMonitor(InitialPolicy(None), DefaultConfigs[0].name)
  {
    PlainNameNotExcluded("ethernet1/1");
    DefaultPort();
  }

  /** With no firewall configuration, the default aggregate "ae1" is configured but disabled. */
  lemma DefaultAggregateNotMonitored()
    ensures !ShouldMonitor(InitialPolicy(None), "ae1")
  {
    PlainNameNotExcluded("ae1");
    DefaultAggregate();
  }

  /** With no firewall configuration, an unconfigured port is picked up by auto-discovery. */
  lemma UnconfiguredPortDiscovered()
    ensures ShouldMonitor(InitialPolicy(None), "ethernet1/7")
  {
    PlainNameNotExcluded("ethernet1/7");
    DefaultUnconfigured();
  }

  // ---------------------------------------------------------------------------
  // _generate_display_name

  /** How the generic ethernet branch words its port number. */
  datatype PortWording = AsWritten | Intended

  /**
   * The generic ethernet branch. As written it replaces "1/" with "Port " and then puts
   * "Port " in front again, so "ethernet1/4" becomes "Port Port 4"; the intended wording
   * drops the "1/" and keeps one "Port ".
   */
  function EthernetPortName(wording: PortWording, name: string): string {
    var port := Replace(name, "ethernet", "");
    match wording
    case AsWritten => "Port " + Replace(port, "1/", "Port ")
    case Intended => "Port " + Replace(port, "1/", "")
  }

  /**
   * `_generate_display_name`: the first matching prefix of the lower-cased name decides
   * (ethernet1/1, 1/2, 1/3, any other ethernet, ae, vlan, tunnel); anything else is the
   * original name capitalised.
   */
  function DisplayNameWith(wording: PortWording, interfaceName: string): (r: string)
    ensures r == "" <==> interfaceName == ""
    ensures GenericEthernet(interfaceName) ==> StartsWith(r, "Port ")
  {
    var name := Lower(interfaceName);
    if StartsWith(name, "ethernet1/1") then "WAN/Internet"
    else if StartsWith(name, "ethernet1/2") then "LAN/Internal"
    else if StartsWith(name, "ethernet1/3") then "DMZ"
    else if StartsWith(name, "ethernet") then EthernetPortName(wording, name)
    else if StartsWith(name, "ae") then "Aggregate " + Replace(name, "ae", "")
    else if StartsWith(name, "vlan") then "VLAN " + Replace(name, "vlan", "")
    else if StartsWith(name, "tunnel") then "Tunnel " + Replace(name, "tunnel.", "")
    else Capitalize(interfaceName)
  }

  /**
   * An ethernet name (in any case) other than the three named ports: the one branch in
   * which the two wordings differ.
   */
  predicate GenericEthernet(interfaceName: string) {
    var name := Lower(interfaceName);
    StartsWith(name, "ethernet") && !StartsWith(name, "ethernet1/1") && !StartsWith(name, "ethernet1/2")
    && !StartsWith(name, "ethernet1/3")
  }

  /**
   * The display name as interface_monitor.py computes it: it agrees with the corrected
   * name everywhere except on the generic ethernet ports.
   */
  function DisplayNameAsWritten(interfaceName: string): (r: string)
    ensures !GenericEthernet(interfaceName) ==> r == DisplayName(interfaceName)
    ensures GenericEthernet(interfaceName) ==> StartsWith(r, "Port ")
  {
    DisplayNameWith(AsWritten, interfaceName)
  }

  /** The display name with the ethernet wording corrected: "ethernet1/4" is "Port 4". */
  function DisplayName(interfaceName: string): (r: string)
    ensures r == "" <==> interfaceName == ""
    ensures GenericEthernet(interfaceName) ==> StartsWith(r, "Port ")
  {
    DisplayNameWith(Intended, interfaceName)
  }

  /** The lower-cased name is the name when it has no capital letters. */
  lemma PortNameLowerCase(digits: string)
    requires AllDigits(digits)
    ensures Lower("ethernet1/" + digits) == "ethernet1/" + digits
  {
    var name := "ethernet1/" + digits;
    forall i | 0 <= i < |name| ensures !('A' <= name[i] <= 'Z') {
      if i >= 10 { assert name[i] == digits[i - 10]; }
    }
    LowerUnchanged(name);
  }

  /** A lower-case ethernet name past the three named ports takes the generic branch. */
  lemma GenericEthernetBranch(wording: PortWording, name: string)
    requires Lower(name) == name && StartsWith(name, "ethernet")
    requires !StartsWith(name, "ethernet1/1") && !StartsWith(name, "ethernet1/2") && !StartsWith(name, "ethernet1/3")
    ensures DisplayNameWith(wording, name) == EthernetPortName(wording, name)
  {
  }

  /** Removing "ethernet" from "ethernet1/N" leaves "1/N". */
  lemma StripEthernet(digits: string)
    requires AllDigits(digits)
    ensures Replace("ethernet1/" + digits, "ethernet", "") == "1/" + digits
  {
    var name := "ethernet1/" + digits;
    var rest := "1/" + digits;
    assert name[..8] == "ethernet" && name[8..] == rest;
    forall i | 0 <= i < |rest| ensures rest[i] != 'e' {
      if i >= 2 { assert rest[i] == digits[i - 2]; }
    }
    ReplaceAbsent(rest, "ethernet", "", 0);
  }

  /** Replacing "1/" in "1/N" by `rep` gives `rep` followed by N. */
  lemma ReplacePortPrefix(digits: string, rep: string)
    requires AllDigits(digits)
    ensures Replace("1/" + digits, "1/", rep) == rep + digits
  {
    var rest := "1/" + digits;
    assert rest[..2] == "1/" && rest[2..] == digits;
    forall i | 0 <= i < |digits| ensures digits[i] != '/' {
      assert IsDigit(digits[i]);
    }
    ReplaceAbsent(digits, "1/", rep, 1);
  }

  /**
   * A port "ethernet1/N" other than 1/1, 1/2 and 1/3 (N a decimal number not starting
   * with 1, 2 or 3): as written it is named "Port Port N"; the intended name is "Port N".
   */
  lemma EthernetPortNames(digits: string)
    requires |digits| > 0 && AllDigits(digits) && digits[0] != '1' && digits[0] != '2' && digits[0] != '3'
    ensures DisplayNameAsWritten("ethernet1/" + digits) == "Port Port " + digits
    ensures DisplayName("ethernet1/" + digits) == "Port " + digits
  {
    var name := "ethernet1/" + digits;
    PortNameLowerCase(digits);
    assert name[10] == digits[0] && name[..8] == "ethernet";
    GenericEthernetBranch(AsWritten, name);
    GenericEthernetBranch(Intended, name);
    StripEthernet(digits);
    ReplacePortPrefix(digits, "Port ");
    ReplacePortPrefix(digits, "");
    assert "Port " + ("Port " + digits) == "Port Port " + digits;
    assert "" + digits == digits;
  }

  /** "ethernet1/4" is shown as "Port Port 4" by the code as written, "Port 4" as intended. */
  lemma EthernetPortFour()
    ensures DisplayNameAsWritten("ethernet1/4") == "Port Port 4"
    ensures DisplayName("ethernet1/4") == "Port 4"
  {
    EthernetPortNames("4");
    assert "ethernet1/" + "4" == "ethernet1/4";
  }

  /** The prefix tests run in order: "ethernet1/12" is named like ethernet1/1. */
  lemma LongPortNamedAsFirst()
    ensures DisplayNameAsWritten("ethernet1/12") == DisplayName("ethernet1/12") == "WAN/Internet"
  {
    LowerUnchanged("ethernet1/12");
    assert "ethernet1/12"[..11] == "ethernet1/1";
  }

  /** Case does not matter to the prefix tests. */
  lemma CapitalisedPortNamed()
    ensures DisplayNameAsWritten("Ethernet1/2") == DisplayName("Ethernet1/2") == "LAN/Internal"
  {
    assert Lower("Ethernet1/2") == "ethernet1/2";
    assert "ethernet1/2"[..11] == "ethernet1/2";
  }

  /** Aggregates are numbered from what follows "ae". */
  lemma AggregateNamed()
    ensures DisplayNameAsWritten("ae3") == DisplayName("ae3") == "Aggregate 3"
  {
    LowerUnchanged("ae3");
    assert "ae3"[..2] == "ae";
    assert Replace("ae3", "ae", "") == "" + Replace("3", "ae", "");
  }

  /** VLAN interfaces are numbered from what follows "vlan". */
  lemma VlanNamed()
    ensures DisplayNameAsWritten("vlan10") == DisplayName("vlan10") == "VLAN 10"
  {
    LowerUnchanged("vlan10");
    assert "vlan10"[..4] == "vlan";
    assert Replace("vlan10", "vlan", "") == "" + Replace("10", "vlan", "");
  }

  /** A name matching no prefix is the original name capitalised. */
  lemma OtherNameCapitalised()
    ensures DisplayNameAsWritten("LO1") == DisplayName("LO1") == "Lo1"
  {
    assert Lower("LO1") == "lo1";
    assert "lo1"[..2][0] == 'l';
    assert Capitalize("LO1") == [UpperChar('L')] + Lower("O1");
    assert Lower("O1") == "o1";
  }
}
