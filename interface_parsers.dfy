/**
 * The XML readers of the interface monitors: interface counters and session counts in
 * interface_monitor.py, interface discovery in interface_monitor_fixed.py.
 *
 * As elsewhere, a document is given as what the XML queries found in it (`Xml.Parsed`)
 * or as unparsable (`Xml.Malformed`); the clock reading stamped on every sample is the
 * parameter `now`.
 */
module InterfaceParsers {
  import opened Wrappers
  import opened Text
  import opened Parsers
  import opened InterfaceRates

  // ---------------------------------------------------------------------------
  // parse_interface_statistics (interface_monitor.py)

  /** The texts of an entry's six counter elements; None for an element that is missing. */
  datatype CounterTexts = CounterTexts(
    ibytes: Option<string>,
    obytes: Option<string>,
    ipackets: Option<string>,
    opackets: Option<string>,
    ierrors: Option<string>,
    oerrors: Option<string>)

  /**
   * One `entry` element: the text of its `name` child (None when the child is missing or
   * has no text) and its `counters` child (None when missing).
   */
  datatype InterfaceEntry = InterfaceEntry(name: Option<string>, counters: Option<CounterTexts>)

  /** `int(counters.findtext(tag, "0"))`: a missing counter reads as zero. */
  function CounterValue(t: Option<string>): Option<int> {
    ParseInt(t.GetOr("0"))
  }

  /** The case-sensitive prefix test of the legacy parser. */
  predicate SkippedName(name: string) {
    StartsWith(name, "mgmt") || StartsWith(name, "loopback") || StartsWith(name, "tunnel")
  }

  /**
   * The sample one entry contributes: none without a non-empty name, for a skipped
   * name, without counters, or when a counter text is not an integer.
   */
  function SampleOf(e: InterfaceEntry, now: real): (r: Option<InterfaceSample>)
    ensures r.Some? <==> (e.name.Some? && e.name.value != "" && !SkippedName(e.name.value) && e.counters.Some?
      && CounterValue(e.counters.value.ibytes).Some? && CounterValue(e.counters.value.obytes).Some?
      && CounterValue(e.counters.value.ipackets).Some? && CounterValue(e.counters.value.opackets).Some?
      && CounterValue(e.counters.value.ierrors).Some? && CounterValue(e.counters.value.oerrors).Some?)
    ensures r.Some? ==> (r.value.name == e.name.value && r.value.timestamp == now && r.value.success
      && Some(r.value.rxBytes) == CounterValue(e.counters.value.ibytes)
      && Some(r.value.txBytes) == CounterValue(e.counters.value.obytes)
      && Some(r.value.rxPackets) == CounterValue(e.counters.value.ipackets)
      && Some(r.value.txPackets) == CounterValue(e.counters.value.opackets)
      && Some(r.value.rxErrors) == CounterValue(e.counters.value.ierrors)
      && Some(r.value.txErrors) == CounterValue(e.counters.value.oerrors))
  {
    if e.name.None? || e.name.value == "" || SkippedName(e.name.value) || e.counters.None? then None
    else
      var c := e.counters.value;
      var rb, tb, rp, tp := CounterValue(c.ibytes), CounterValue(c.obytes), CounterValue(c.ipackets), CounterValue(c.opackets);
      var re, te := CounterValue(c.ierrors), CounterValue(c.oerrors);
      if rb.Some? && tb.Some? && rp.Some? && tp.Some? && re.Some? && te.Some? then
        Some(InterfaceSample(now, e.name.value, rb.value, tb.value, rp.value, tp.value, re.value, te.value, true))
      else None
  }

  /** The samples of a list of candidates by name, a later sample of the same name replacing an earlier one. */
  function TableOf(samples: seq<Option<InterfaceSample>>): map<string, InterfaceSample> {
    if samples == [] then map[]
    else
      var m := TableOf(samples[..|samples| - 1]);
      match samples[|samples| - 1]
      case None => m
      case Some(s) => m[s.name := s]
  }

  /** The candidate sample of each entry. */
  function EntrySamples(entries: seq<InterfaceEntry>, now: real): (r: seq<Option<InterfaceSample>>)
    ensures |r| == |entries| && forall i :: 0 <= i < |entries| ==> r[i] == SampleOf(entries[i], now)
  {
    seq(|entries|, i requires 0 <= i < |entries| => SampleOf(entries[i], now))
  }

  /** The samples `parse_interface_statistics` returns: none for an unparsable document. */
  function InterfaceStatistics(doc: Xml<seq<InterfaceEntry>>, now: real): (r: map<string, InterfaceSample>)
    ensures doc.Malformed? ==> r == map[]
    ensures forall n :: n in r ==> r[n].name == n && r[n].timestamp == now && r[n].success
  {
    match doc
    case Malformed => map[]
    case Parsed(entries) => TableValues(EntrySamples(entries, now)); TableOf(EntrySamples(entries, now))
  }

  /** One more entry files its sample, if it yields one, over the table so far. */
  lemma StatisticsStep(entries: seq<InterfaceEntry>, now: real, i: nat)
    requires i < |entries|
    ensures var before := TableOf(EntrySamples(entries[..i], now));
      var sample := SampleOf(entries[i], now);
      TableOf(EntrySamples(entries[..i + 1], now))
        == if sample.Some? then before[sample.value.name := sample.value] else before
  {
    var samples := EntrySamples(entries[..i + 1], now);
    assert samples[..i] == EntrySamples(entries[..i], now);
    assert samples[i] == SampleOf(entries[i], now);
  }

  /** `parse_interface_statistics`: the loop over the entries. */
  method ParseInterfaceStatistics(doc: Xml<seq<InterfaceEntry>>, now: real) returns (samples: map<string, InterfaceSample>)
    ensures samples == InterfaceStatistics(doc, now)
  {
    samples := map[];
    if doc.Malformed? {
      return;
    }
    var entries := doc.content;
    var i := 0;
    while i < |entries|
      invariant 0 <= i <= |entries|
      invariant samples == TableOf(EntrySamples(entries[..i], now))
    {
      StatisticsStep(entries, now, i);
      var sample := SampleOf(entries[i], now);
      if sample.Some? {
        samples := samples[sample.value.name := sample.value];
      }
      i := i + 1;
    }
    assert entries[..i] == entries;
  }

  /** The table holds a name exactly when some candidate is a sample of that name. */
  lemma {:induction false} TableKeys(samples: seq<Option<InterfaceSample>>)
    ensures forall n :: n in TableOf(samples) <==>
      exists i :: 0 <= i < |samples| && samples[i].Some? && samples[i].value.name == n
  {
    if samples != [] {
      var init := samples[..|samples| - 1];
      TableKeys(init);
      assert forall i :: 0 <= i < |init| ==> init[i] == samples[i];
    }
  }

  /** Every sample in the table is one of the candidates, filed under its own name. */
  lemma {:induction false} TableValues(samples: seq<Option<InterfaceSample>>)
    ensures forall n :: n in TableOf(samples) ==>
      TableOf(samples)[n].name == n && Some(TableOf(samples)[n]) in samples
  {
    if samples != [] {
      TableValues(samples[..|samples| - 1]);
    }
  }

  /** The last candidate of a name decides that name's sample. */
  lemma {:induction false} TableLastWins(samples: seq<Option<InterfaceSample>>, i: int)
    requires 0 <= i < |samples| && samples[i].Some?
    requires forall k :: i < k < |samples| && samples[k].Some? ==> samples[k].value.name != samples[i].value.name
    ensures samples[i].value.name in TableOf(samples)
    ensures TableOf(samples)[samples[i].value.name] == samples[i].value
  {
    var init := samples[..|samples| - 1];
    if i < |samples| - 1 {
      assert init[i] == samples[i];
      TableLastWins(init, i);
    }
  }

  /** Every entry that yields a sample has its name in the parsed table. */
  lemma InterfaceStatisticsComplete(entries: seq<InterfaceEntry>, now: real, i: int)
    requires 0 <= i < |entries| && SampleOf(entries[i], now).Some?
    ensures entries[i].name.value in InterfaceStatistics(Parsed(entries), now)
  {
    var samples := EntrySamples(entries, now);
    TableKeys(samples);
    assert samples[i].Some? && samples[i].value.name == entries[i].name.value;
  }

  /**
   * Each sample in the parsed table is one an entry yields: filed under its own name, a
   * non-empty name that is not skipped, stamped `now`.
   */
  lemma InterfaceStatisticsSamples(entries: seq<InterfaceEntry>, now: real)
    ensures var m := InterfaceStatistics(Parsed(entries), now);
      forall n :: n in m ==>
        (m[n].name == n && m[n].timestamp == now && m[n].success && n != "" && !SkippedName(n)
         && exists i :: 0 <= i < |entries| && SampleOf(entries[i], now) == Some(m[n]))
  {
    var samples := EntrySamples(entries, now);
    TableValues(samples);
    var m := TableOf(samples);
    forall n | n in m
      ensures m[n].timestamp == now && m[n].success && n != "" && !SkippedName(n)
      ensures exists i :: 0 <= i < |entries| && SampleOf(entries[i], now) == Some(m[n])
    {
      var i :| 0 <= i < |samples| && samples[i] == Some(m[n]);
      SampleOfSome(entries[i], now, m[n]);
    }
  }

  /** A sample an entry yields is a successful one of the entry's name, taken now. */
  lemma SampleOfSome(e: InterfaceEntry, now: real, s: InterfaceSample)
    requires SampleOf(e, now) == Some(s)
    ensures e.name.Some? && s.name == e.name.value && s.timestamp == now && s.success
    ensures s.name != "" && !SkippedName(s.name)
  {
  }

  /** An entry with a name but no counter elements reads as all-zero counters. */
  lemma MissingCountersAreZero(name: string, now: real)
    requires name != "" && !SkippedName(name)
    ensures var e := InterfaceEntry(Some(name), Some(CounterTexts(None, None, None, None, None, None)));
      SampleOf(e, now) == Some(InterfaceSample(now, name, 0, 0, 0, 0, 0, 0, true))
  {
    ParseIntDigits("0");
    assert DigitsValue("0") == 0 by { assert "0"[..0] == []; }
  }

  /** The legacy skip is case-sensitive: "MGMT" passes while "mgmt0" is skipped. */
  lemma LegacySkipIsCaseSensitive()
    ensures !SkippedName("MGMT") && SkippedName("mgmt0")
  {
    assert "mgmt0"[..4] == "mgmt";
    assert "MGMT"[..4] != "mgmt" by { assert "MGMT"[0] != "mgmt"[0]; }
  }

  // ---------------------------------------------------------------------------
  // parse_session_statistics (interface_monitor.py)

  /**
   * What the session-info document holds: the texts of `num-active` and `num-max`
   * (None when missing), the `proto` text of each `entry` ("" when missing) and the
   * text of `pps` (None when missing).
   */
  datatype SessionInfoDoc = SessionInfoDoc(
    numActive: Option<string>,
    numMax: Option<string>,
    protos: seq<string>,
    pps: Option<string>)

  /** The number of entries whose protocol, lower-cased, is `proto`. */
  function ProtoCount(protos: seq<string>, proto: string): (n: nat)
    ensures n <= |protos|
  {
    if protos == [] then 0
    else ProtoCount(protos[..|protos| - 1], proto) + (if Lower(protos[|protos| - 1]) == proto then 1 else 0)
  }

  /** An entry is counted under at most one protocol, so the three counts add up to at most the entries. */
  lemma {:induction false} ProtoCountsBounded(protos: seq<string>)
    ensures ProtoCount(protos, "tcp") + ProtoCount(protos, "udp") + ProtoCount(protos, "icmp") <= |protos|
  {
    if protos != [] {
      ProtoCountsBounded(protos[..|protos| - 1]);
    }
  }

  /** `float(pps)` when the text is non-empty and a number, else 0.0. */
  function SessionRate(pps: Option<string>): real {
    if pps.Some? && pps.value != "" && ParseFloat(pps.value).Some? then ParseFloat(pps.value).value else 0.0
  }

  /** The reading returned when the document cannot be read. */
  function FailedSessionStats(now: real): SessionStats {
    SessionStats(now, 0, 0, 0, 0, 0, 0.0, false)
  }

  /**
   * What `parse_session_statistics` returns: a failed reading for an unparsable document
   * or a count that is not an integer, nothing when a count is missing, else the counts.
   */
  function SessionStatistics(doc: Xml<SessionInfoDoc>, now: real): (r: Option<SessionStats>)
    ensures doc.Malformed? ==> r == Some(FailedSessionStats(now))
    ensures doc.Parsed? && (doc.content.numActive.None? || doc.content.numMax.None?) ==> r.None?
    ensures doc.Parsed? && doc.content.numActive.Some? && doc.content.numMax.Some?
      && (ParseInt(doc.content.numActive.value).None? || ParseInt(doc.content.numMax.value).None?)
      ==> r == Some(FailedSessionStats(now))
    ensures r.Some? && r.value.success <==> (doc.Parsed? && doc.content.numActive.Some? && doc.content.numMax.Some?
      && ParseInt(doc.content.numActive.value).Some? && ParseInt(doc.content.numMax.value).Some?)
    ensures r.Some? && r.value.success ==>
      && r.value.timestamp == now
      && Some(r.value.activeSessions) == ParseInt(doc.content.numActive.value)
      && Some(r.value.maxSessions) == ParseInt(doc.content.numMax.value)
      && r.value.tcpSessions == ProtoCount(doc.content.protos, "tcp")
      && r.value.udpSessions == ProtoCount(doc.content.protos, "udp")
      && r.value.icmpSessions == ProtoCount(doc.content.protos, "icmp")
      && r.value.tcpSessions + r.value.udpSessions + r.value.icmpSessions <= |doc.content.protos|
      && r.value.sessionRate == SessionRate(doc.content.pps)
    ensures r.Some? && !r.value.success ==> r.value == FailedSessionStats(now)
  {
    match doc
    case Malformed => Some(FailedSessionStats(now))
    case Parsed(d) =>
      if d.numActive.None? || d.numMax.None? then None
      else
        var active, max := ParseInt(d.numActive.value), ParseInt(d.numMax.value);
        if active.None? || max.None? then Some(FailedSessionStats(now))
        else
          ProtoCountsBounded(d.protos);
          Some(SessionStats(now, active.value, max.value, ProtoCount(d.protos, "tcp"),
            ProtoCount(d.protos, "udp"), ProtoCount(d.protos, "icmp"), SessionRate(d.pps), true))
  }

  /** `parse_session_statistics`: the counting loop over the entries. */
  method ParseSessionStatistics(doc: Xml<SessionInfoDoc>, now: real) returns (r: Option<SessionStats>)
    ensures r == SessionStatistics(doc, now)
  {
    if doc.Malformed? {
      return Some(FailedSessionStats(now));
    }
    var d := doc.content;
    var tcp, udp, icmp := 0, 0, 0;
    var i := 0;
    while i < |d.protos|
      invariant 0 <= i <= |d.protos|
      invariant tcp == ProtoCount(d.protos[..i], "tcp")
      invariant udp == ProtoCount(d.protos[..i], "udp")
      invariant icmp == ProtoCount(d.protos[..i], "icmp")
    {
      assert d.protos[..i + 1][..i] == d.protos[..i];
      var proto := Lower(d.protos[i]);
      if proto == "tcp" {
        tcp := tcp + 1;
      } else if proto == "udp" {
        udp := udp + 1;
      } else if proto == "icmp" {
        icmp := icmp + 1;
      }
      i := i + 1;
    }
    assert d.protos[..i] == d.protos;
    var rate := SessionRate(d.pps);
    if d.numActive.None? || d.numMax.None? {
      return None;
    }
    var active, max := ParseInt(d.numActive.value), ParseInt(d.numMax.value);
    if active.None? || max.None? {
      return Some(FailedSessionStats(now));
    }
    return Some(SessionStats(now, active.value, max.value, tcp, udp, icmp, rate, true));
  }

  /** Protocol names are compared without regard to case. */
  lemma ProtocolCaseIgnored()
    ensures ProtoCount(["TCP", "udp", "Tcp", "sctp"], "tcp") == 2
  {
    var p := ["TCP", "udp", "Tcp", "sctp"];
    assert Lower("TCP") == "tcp" && Lower("Tcp") == "tcp";
    assert Lower("udp") != "tcp" by { assert Lower("udp")[0] == 'u'; }
    assert Lower("sctp") != "tcp" by { assert |Lower("sctp")| == 4; }
    assert p[..3][..2][..1][..0] == [];
    assert ProtoCount(p[..3][..2][..1], "tcp") == 1;
    assert ProtoCount(p[..3][..2], "tcp") == 1;
    assert ProtoCount(p[..3], "tcp") == 2;
  }

  /** A rate that is missing, empty or not a number leaves the rate at zero. */
  lemma SessionRateDefaults()
    ensures SessionRate(None) == 0.0 && SessionRate(Some("")) == 0.0
  {
  }

  // ---------------------------------------------------------------------------
  // discover_interfaces_panos11 (interface_monitor_fixed.py)

  /**
   * The discovery document: its `status` attribute and the texts of the `name`
   * elements under `entry`, `hw`, `ifnet` and `interface`, in that order (None for an
   * element without text).
   */
  datatype DiscoveryDoc = DiscoveryDoc(status: Option<string>, names: seq<Option<string>>)

  /** The case-insensitive prefix test of the fixed discovery. */
  predicate ExcludedKind(name: string) {
    var low := Lower(name);
    StartsWith(low, "mgmt") || StartsWith(low, "loopback") || StartsWith(low, "tunnel")
  }

  /** A name element discovery keeps: it has text and its stripped text is not excluded. */
  predicate Discovered(t: Option<string>) {
    t.Some? && t.value != "" && !ExcludedKind(Strip(t.value))
  }

  /** The stripped names discovery keeps, as a set. */
  function DiscoveredNames(names: seq<Option<string>>): (r: set<string>)
    ensures forall n :: n in r ==> !ExcludedKind(n)
  {
    if names == [] then {}
    else
      var last := names[|names| - 1];
      var found := DiscoveredNames(names[..|names| - 1]);
      if Discovered(last) then found + {Strip(last.value)} else found
  }

  /** Discovery keeps exactly the stripped texts of the name elements it accepts. */
  lemma {:induction false} DiscoveredNamesMembers(names: seq<Option<string>>)
    ensures forall n :: n in DiscoveredNames(names) <==>
      exists i :: 0 <= i < |names| && Discovered(names[i]) && n == Strip(names[i].value)
  {
    if names != [] {
      var init := names[..|names| - 1];
      DiscoveredNamesMembers(init);
      assert forall i :: 0 <= i < |init| ==> init[i] == names[i];
    }
  }

  /**
   * What `discover_interfaces_panos11` returns (a list without repeats, modelled as a
   * set): nothing for a blank response, an unparsable one or an error status.
   */
  function Discovery(text: string, doc: Xml<DiscoveryDoc>): (r: set<string>)
    ensures Strip(text) == "" || doc.Malformed? ==> r == {}
    ensures forall n :: n in r ==> !ExcludedKind(n)
  {
    if Strip(text) == "" then {}
    else match doc
      case Malformed => {}
      case Parsed(d) => if d.status == Some("error") then {} else DiscoveredNames(d.names)
  }

  /** One more name element adds its stripped text when discovery keeps it. */
  lemma DiscoveredNamesStep(names: seq<Option<string>>, i: nat)
    requires i < |names|
    ensures DiscoveredNames(names[..i + 1])
      == if Discovered(names[i]) then DiscoveredNames(names[..i]) + {Strip(names[i].value)} else DiscoveredNames(names[..i])
  {
    assert names[..i + 1][..i] == names[..i];
  }

  /** `discover_interfaces_panos11`: the loop over the name elements. */
  method DiscoverInterfaces(text: string, doc: Xml<DiscoveryDoc>) returns (found: set<string>)
    ensures found == Discovery(text, doc)
  {
    found := {};
    if Strip(text) == "" || doc.Malformed? || doc.content.status == Some("error") {
      return;
    }
    var names := doc.content.names;
    var i := 0;
    while i < |names|
      invariant 0 <= i <= |names|
      invariant found == DiscoveredNames(names[..i])
    {
      DiscoveredNamesStep(names, i);
      var t := names[i];
      if t.Some? && t.value != "" {
        var name := Strip(t.value);
        if !ExcludedKind(name) {
          found := found + {name};
        }
      }
      i := i + 1;
    }
    assert names[..i] == names;
  }

  /** Discovery returns stripped names of no excluded kind, whatever the case of their prefix. */
  lemma DiscoveryExcludes(text: string, doc: Xml<DiscoveryDoc>)
    ensures forall n :: n in Discovery(text, doc) ==>
      (!ExcludedKind(n) && doc.Parsed? && exists t :: Strip(t) == n && Some(t) in doc.content.names)
  {
    if Strip(text) != "" && doc.Parsed? && doc.content.status != Some("error") {
      DiscoveredNamesMembers(doc.content.names);
      forall n | n in Discovery(text, doc)
        ensures !ExcludedKind(n) && exists t :: Strip(t) == n && Some(t) in doc.content.names
      {
        var i :| 0 <= i < |doc.content.names| && Discovered(doc.content.names[i]) && n == Strip(doc.content.names[i].value);
        assert Some(doc.content.names[i].value) == doc.content.names[i];
      }
    }
  }

  /** Where the legacy parser keeps a capitalised "MGMT" port, discovery drops it. */
  lemma DiscoveryIgnoresCase()
    ensures ExcludedKind("MGMT") && !SkippedName("MGMT")
  {
    assert Lower("MGMT") == "mgmt";
    assert "MGMT"[..4] != "mgmt" by { assert "MGMT"[0] != "mgmt"[0]; }
  }
}
