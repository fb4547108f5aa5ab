/**
 * The interface rate calculator of interface_monitor.py and interface_monitor_fixed.py:
 * two counter snapshots of one interface become bits, megabits and packets per second.
 * The two files differ only in how they undo a counter wrap-around.
 *
 * Counters are Python integers (unbounded); timestamps are seconds as `real`, and a
 * rate is the exact quotient (no floating-point rounding).
 */
module InterfaceRates {
  import opened Wrappers

  const Two31: int := 0x8000_0000
  const Two32: int := 0x1_0000_0000
  const Two64: int := 0x1_0000_0000_0000_0000

  /** `InterfaceSample`: one snapshot of an interface's counters. */
  datatype InterfaceSample = InterfaceSample(
    timestamp: real,
    name: string,
    rxBytes: int,
    txBytes: int,
    rxPackets: int,
    txPackets: int,
    rxErrors: int,
    txErrors: int,
    success: bool)

  /** `InterfaceMetrics`: the rates between two snapshots. */
  datatype InterfaceMetrics = InterfaceMetrics(
    name: string,
    intervalSeconds: real,
    rxBps: real,
    txBps: real,
    rxMbps: real,
    txMbps: real,
    rxPps: real,
    txPps: real,
    utilizationPercent: real,
    totalMbps: real)

  /** `SessionStats`: one reading of the session table (the error text is not modelled). */
  datatype SessionStats = SessionStats(
    timestamp: real,
    activeSessions: int,
    maxSessions: int,
    tcpSessions: int,
    udpSessions: int,
    icmpSessions: int,
    sessionRate: real,
    success: bool)

  predicate Counter32(x: int) { 0 <= x < Two32 }
  predicate Counter64(x: int) { 0 <= x < Two64 }

  // ---------------------------------------------------------------------------
  // Wrap-around

  /**
   * interface_monitor.py: a negative delta is taken to be a 32-bit wrap and gets 2^32
   * added. For two 32-bit readings this is the difference modulo 2^32.
   */
  function Delta32(prev: int, curr: int): (d: int)
    ensures d >= curr - prev && (d - (curr - prev)) % Two32 == 0
    ensures Counter32(prev) && Counter32(curr) ==> Counter32(d) && d == (curr - prev) % Two32
  {
    var delta := curr - prev;
    if delta < 0 then delta + Two32 else delta
  }

  /**
   * interface_monitor_fixed.py: a negative delta whose magnitude exceeds 2^31 is taken
   * to be a 64-bit wrap (2^64 added), a smaller one a 32-bit wrap (2^32 added). For two
   * 64-bit readings the result is never negative, and it always agrees with the true
   * difference modulo 2^32.
   */
  function DeltaHeuristic(prev: int, curr: int): (d: int)
    ensures d >= curr - prev && (d - (curr - prev)) % Two32 == 0
    ensures Counter64(prev) && Counter64(curr) ==> d >= 0
  {
    var delta := curr - prev;
    if delta < 0 then
      if -delta > Two31 then delta + Two64 else delta + Two32
    else delta
  }

  /** Which of the two wrap rules a calculator applies. */
  datatype WrapRule = Wrap32 | Wrap64Heuristic

  function Delta(rule: WrapRule, prev: int, curr: int): (d: int)
    ensures d >= curr - prev
    ensures rule == Wrap32 && Counter32(prev) && Counter32(curr) ==> Counter32(d)
    ensures rule == Wrap64Heuristic && Counter64(prev) && Counter64(curr) ==> d >= 0
    ensures Counter32(prev) && Counter32(curr) ==> d >= 0
  {
    match rule
    case Wrap32 => Delta32(prev, curr)
    case Wrap64Heuristic => DeltaHeuristic(prev, curr)
  }

  /** A 32-bit counter wrapping from 4294967290 to 5 advanced by 11 in the original file. */
  lemma Delta32WrapExample()
    ensures Delta32(4294967290, 5) == 11
  {
  }

  /**
   * The same wrap under the 2^64 heuristic: the gap exceeds 2^31, so 2^64 is added and
   * the delta is 2^64 - 4294967285 instead of 11.
   */
  lemma DeltaHeuristicWrapExample()
    ensures DeltaHeuristic(4294967290, 5) == Two64 - 4294967285
    ensures DeltaHeuristic(4294967290, 5) != Delta32(4294967290, 5)
  {
  }

  /** A backwards step of at most 2^31 is still undone as a 32-bit wrap by both rules. */
  lemma SmallWrapAgrees(prev: int, curr: int)
    requires curr < prev && prev - curr <= Two31
    ensures DeltaHeuristic(prev, curr) == Delta32(prev, curr) == curr - prev + Two32
  {
  }

  /** Counters that did not go backwards give the plain difference under both rules. */
  lemma NoWrapAgrees(rule: WrapRule, prev: int, curr: int)
    requires prev <= curr
    ensures Delta(rule, prev, curr) == curr - prev
  {
  }

  // ---------------------------------------------------------------------------
  // Rates

  /** `x / interval` for a count `x`. */
  function PerSecond(x: int, interval: real): real
    requires interval > 0.0
  {
    x as real / interval
  }

  /**
   * `calculate_interface_metrics`: None for snapshots of different interfaces or an
   * interval that is not positive; otherwise the deltas, after the wrap rule, over the
   * interval.
   */
  function Calculate(rule: WrapRule, prev: InterfaceSample, curr: InterfaceSample): (r: Option<InterfaceMetrics>)
    ensures r.None? <==> prev.name != curr.name || curr.timestamp - prev.timestamp <= 0.0
    ensures r.Some? ==> r.value.name == curr.name && r.value.intervalSeconds == curr.timestamp - prev.timestamp
    ensures r.Some? ==> r.value.totalMbps == r.value.rxMbps + r.value.txMbps && r.value.utilizationPercent == 0.0
  {
    if prev.name != curr.name then None
    else
      var interval := curr.timestamp - prev.timestamp;
      if interval <= 0.0 then None
      else
        var rxBps := PerSecond(Delta(rule, prev.rxBytes, curr.rxBytes) * 8, interval);
        var txBps := PerSecond(Delta(rule, prev.txBytes, curr.txBytes) * 8, interval);
        var rxMbps := rxBps / 1000000.0;
        var txMbps := txBps / 1000000.0;
        var rxPps := PerSecond(Delta(rule, prev.rxPackets, curr.rxPackets), interval);
        var txPps := PerSecond(Delta(rule, prev.txPackets, curr.txPackets), interval);
        Some(InterfaceMetrics(curr.name, interval, rxBps, txBps, rxMbps, txMbps, rxPps, txPps, 0.0, rxMbps + txMbps))
  }


  /** A per-second rate over the interval recovers the count. */
  lemma PerSecondTimes(rate: real, x: int, t: real)
    requires t > 0.0 && rate == PerSecond(x, t)
    ensures rate * t == x as real
  {
  }

  /**
   * Multiplying each rate back by the interval recovers its delta: eight bits per byte,
   * one packet per packet, and a million bits per megabit.
   */
  lemma CalculateRecoversDeltas(rule: WrapRule, prev: InterfaceSample, curr: InterfaceSample)
    requires Calculate(rule, prev, curr).Some?
    ensures var m := Calculate(rule, prev, curr).value;
      && m.intervalSeconds > 0.0
      && m.rxBps * m.intervalSeconds == 8.0 * Delta(rule, prev.rxBytes, curr.rxBytes) as real
      && m.txBps * m.intervalSeconds == 8.0 * Delta(rule, prev.txBytes, curr.txBytes) as real
      && m.rxPps * m.intervalSeconds == Delta(rule, prev.rxPackets, curr.rxPackets) as real
      && m.txPps * m.intervalSeconds == Delta(rule, prev.txPackets, curr.txPackets) as real
      && m.rxMbps * 1000000.0 == m.rxBps && m.txMbps * 1000000.0 == m.txBps
  {
    var m := Calculate(rule, prev, curr).value;
    var t := m.intervalSeconds;
    var rxb, txb := Delta(rule, prev.rxBytes, curr.rxBytes), Delta(rule, prev.txBytes, curr.txBytes);
    var rxp, txp := Delta(rule, prev.rxPackets, curr.rxPackets), Delta(rule, prev.txPackets, curr.txPackets);
    PerSecondTimes(m.rxBps, rxb * 8, t);
    PerSecondTimes(m.txBps, txb * 8, t);
    PerSecondTimes(m.rxPps, rxp, t);
    PerSecondTimes(m.txPps, txp, t);
  }

  predicate Counters64(s: InterfaceSample) {
    Counter64(s.rxBytes) && Counter64(s.txBytes) && Counter64(s.rxPackets) && Counter64(s.txPackets)
  }

  predicate Counters32(s: InterfaceSample) {
    Counter32(s.rxBytes) && Counter32(s.txBytes) && Counter32(s.rxPackets) && Counter32(s.txPackets)
  }

  /**
   * Rates are never negative: for 32-bit counters under either rule, and for 64-bit
   * counters under the heuristic of the fixed file.
   */
  lemma CalculateNonNegative(rule: WrapRule, prev: InterfaceSample, curr: InterfaceSample)
    requires Calculate(rule, prev, curr).Some?
    requires (Counters32(prev) && Counters32(curr)) || (rule == Wrap64Heuristic && Counters64(prev) && Counters64(curr))
    ensures NonNegativeRates(Calculate(rule, prev, curr).value)
  {
    var m := Calculate(rule, prev, curr).value;
    var t := m.intervalSeconds;
    QuotientNonNegative(Delta(rule, prev.rxBytes, curr.rxBytes) * 8, t);
    QuotientNonNegative(Delta(rule, prev.txBytes, curr.txBytes) * 8, t);
    QuotientNonNegative(Delta(rule, prev.rxPackets, curr.rxPackets), t);
    QuotientNonNegative(Delta(rule, prev.txPackets, curr.txPackets), t);
  }

  /** Each rate times the interval gives back its delta: eight bits per byte, one per packet. */
  predicate RatesRecover(m: InterfaceMetrics, rxBytes: int, txBytes: int, rxPackets: int, txPackets: int) {
    && m.rxBps * m.intervalSeconds == 8.0 * rxBytes as real
    && m.txBps * m.intervalSeconds == 8.0 * txBytes as real
    && m.rxPps * m.intervalSeconds == rxPackets as real
    && m.txPps * m.intervalSeconds == txPackets as real
  }

  predicate NonNegativeRates(m: InterfaceMetrics) {
    m.rxBps >= 0.0 && m.txBps >= 0.0 && m.rxMbps >= 0.0 && m.txMbps >= 0.0
    && m.rxPps >= 0.0 && m.txPps >= 0.0 && m.totalMbps >= 0.0
  }

  /**
   * interface_monitor.py's calculator: the byte and packet rates times the interval give
   * back the 32-bit-wrapped deltas, and for 32-bit counters no rate is negative.
   */
  function CalculateLegacy(prev: InterfaceSample, curr: InterfaceSample): (r: Option<InterfaceMetrics>)
    ensures r.None? <==> prev.name != curr.name || curr.timestamp <= prev.timestamp
    ensures r.Some? ==> RatesRecover(r.value, Delta32(prev.rxBytes, curr.rxBytes), Delta32(prev.txBytes, curr.txBytes),
      Delta32(prev.rxPackets, curr.rxPackets), Delta32(prev.txPackets, curr.txPackets))
    ensures r.Some? && Counters32(prev) && Counters32(curr) ==> NonNegativeRates(r.value)
  {
    CalculateFacts(Wrap32, prev, curr);
    Calculate(Wrap32, prev, curr)
  }

  /**
   * interface_monitor_fixed.py's calculator: the rates times the interval give back the
   * deltas under the 2^64 heuristic, and for 64-bit counters no rate is negative.
   */
  function CalculateFixed(prev: InterfaceSample, curr: InterfaceSample): (r: Option<InterfaceMetrics>)
    ensures r.None? <==> prev.name != curr.name || curr.timestamp <= prev.timestamp
    ensures r.Some? ==> RatesRecover(r.value, DeltaHeuristic(prev.rxBytes, curr.rxBytes), DeltaHeuristic(prev.txBytes, curr.txBytes),
      DeltaHeuristic(prev.rxPackets, curr.rxPackets), DeltaHeuristic(prev.txPackets, curr.txPackets))
    ensures r.Some? && Counters64(prev) && Counters64(curr) ==> NonNegativeRates(r.value)
  {
    CalculateFacts(Wrap64Heuristic, prev, curr);
    Calculate(Wrap64Heuristic, prev, curr)
  }

  /** Counters that the rule undoes without a negative delta: 32-bit ones, or 64-bit ones under the heuristic. */
  predicate WithinWidth(rule: WrapRule, prev: InterfaceSample, curr: InterfaceSample) {
    (Counters32(prev) && Counters32(curr)) || (rule == Wrap64Heuristic && Counters64(prev) && Counters64(curr))
  }

  /** The two lemmas above, for any pair of snapshots. */
  lemma CalculateFacts(rule: WrapRule, prev: InterfaceSample, curr: InterfaceSample)
    ensures var r := Calculate(rule, prev, curr);
      r.Some? ==> RatesRecover(r.value, Delta(rule, prev.rxBytes, curr.rxBytes), Delta(rule, prev.txBytes, curr.txBytes),
        Delta(rule, prev.rxPackets, curr.rxPackets), Delta(rule, prev.txPackets, curr.txPackets))
    ensures var r := Calculate(rule, prev, curr);
      r.Some? ==> WithinWidth(rule, prev, curr) ==> NonNegativeRates(r.value)
  {
    if Calculate(rule, prev, curr).Some? {
      CalculateRecoversDeltas(rule, prev, curr);
      if WithinWidth(rule, prev, curr) {
        CalculateNonNegative(rule, prev, curr);
      }
    }
  }

  lemma QuotientNonNegative(x: int, t: real)
    requires x >= 0 && t > 0.0
    ensures PerSecond(x, t) >= 0.0
  {
  }

  /** 1000 bytes received in one second: 8000 bits per second, 0.008 Mbps. */
  lemma CalculateExample()
    ensures var prev := InterfaceSample(0.0, "ethernet1/1", 1000, 0, 10, 0, 0, 0, true);
      var curr := InterfaceSample(1.0, "ethernet1/1", 2000, 0, 20, 0, 0, 0, true);
      var m := CalculateLegacy(prev, curr);
      && m.Some? && m.value.rxBps == 8000.0 && m.value.rxMbps == 0.008 && m.value.rxPps == 10.0
      && m.value.txBps == 0.0 && m.value.totalMbps == 0.008
  {
    var prev := InterfaceSample(0.0, "ethernet1/1", 1000, 0, 10, 0, 0, 0, true);
    var curr := InterfaceSample(1.0, "ethernet1/1", 2000, 0, 20, 0, 0, 0, true);
    CalculateExampleRule(prev, curr);
  }

  /** The same example stated on `Calculate` under the 32-bit rule. */
  lemma CalculateExampleRule(prev: InterfaceSample, curr: InterfaceSample)
    requires prev == InterfaceSample(0.0, "ethernet1/1", 1000, 0, 10, 0, 0, 0, true)
    requires curr == InterfaceSample(1.0, "ethernet1/1", 2000, 0, 20, 0, 0, 0, true)
    ensures var m := Calculate(Wrap32, prev, curr);
      && m.Some? && m.value.rxBps == 8000.0 && m.value.rxMbps == 0.008 && m.value.rxPps == 10.0
      && m.value.txBps == 0.0 && m.value.totalMbps == 0.008
  {
    assert Delta(Wrap32, 1000, 2000) == 1000 && Delta(Wrap32, 10, 20) == 10 && Delta(Wrap32, 0, 0) == 0;
    assert PerSecond(8000, 1.0) == 8000.0 && PerSecond(10, 1.0) == 10.0 && PerSecond(0, 1.0) == 0.0;
  }

  /** A snapshot paired with itself, or an older one, yields no rate. */
  lemma NoRateWithoutElapsedTime(rule: WrapRule, prev: InterfaceSample, curr: InterfaceSample)
    requires curr.timestamp <= prev.timestamp
    ensures Calculate(rule, prev, curr).None?
  {
  }
}
