/**
 * The reply parsers of collectors.py and panos-monitor.py, over the values the XML
 * traversal and the top regular expression extract. Each parser returns a float-valued
 * dictionary; a reply that does not parse as XML gives the empty dictionary.
 */
module Parsers {
  import opened Wrappers
  import opened Text
  import opened Aggregation
  import opened Records

  /** A reply after `ET.fromstring`: Malformed when it raises, else what was extracted. */
  datatype Xml<T> = Malformed | Parsed(content: T)

  /** The three groups the `Cpu(s)` pattern captures in top's text, each `[0-9.]+`. */
  datatype CpuMatch = CpuMatch(user: string, system: string, idle: string)

  /** One `resource-utilization/entry`: its name and value texts (a missing one as ""). */
  datatype UtilEntry = UtilEntry(name: string, value: string)

  /**
   * What the parsers read from a resource-monitor reply: the text of every
   * `cpu-load-maximum/entry/value` node (one per core, newest value first) and every
   * `resource-utilization/entry`, in document order; a missing text is "".
   */
  datatype ResourceMonitor = ResourceMonitor(coreLoads: seq<string>, utilisation: seq<UtilEntry>)

  /** The `result/kbps` and `result/pps` texts of a session-info reply, None when absent. */
  datatype SessionInfo = SessionInfo(kbps: Option<string>, pps: Option<string>)

  const CpuKeys: set<Field> := {CpuUser, CpuSystem, CpuIdle, MgmtCpu}
  const DpKeys: set<Field> := {DpCpuMean, DpCpuMax, DpCpuP95, DpCpu}
  const ThroughputKeys: set<Field> := {ThroughputMbps, PpsTotal}

  // ---------------------------------------------------------------------------
  // parse_cpu_from_top

  /** `map(float, m.groups())`: the three captures converted, None when one does not convert. */
  function CaptureValues(m: CpuMatch): Option<(real, real, real)> {
    var usr, sy, idle := ParseFloat(m.user), ParseFloat(m.system), ParseFloat(m.idle);
    if usr.Some? && sy.Some? && idle.Some? then Some((usr.value, sy.value, idle.value)) else None
  }

  /**
   * `parse_cpu_from_top`: user, system and idle as captured, and management CPU as
   * user + system; {} when the XML is malformed, there is no text or no match, or a
   * capture does not convert.
   */
  function CpuFromTop(reply: Xml<Option<CpuMatch>>): (r: map<Field, real>)
    ensures r != map[] <==> reply.Parsed? && reply.content.Some? && CaptureValues(reply.content.value).Some?
    ensures r != map[] ==> r.Keys == CpuKeys && r[MgmtCpu] == r[CpuUser] + r[CpuSystem]
    ensures r != map[] ==> (r[CpuUser], r[CpuSystem], r[CpuIdle]) == CaptureValues(reply.content.value).value
  {
    if reply.Parsed? && reply.content.Some? && CaptureValues(reply.content.value).Some? then
      var (usr, sy, idle) := CaptureValues(reply.content.value).value;
      map[CpuUser := usr, CpuSystem := sy, CpuIdle := idle, MgmtCpu := usr + sy]
    else map[]
  }

  /** A top line reading `3.2 us, 1.5 sy, ... 95.0 id` gives management CPU 4.7. */
  lemma CpuFromTopExample()
    ensures CpuFromTop(Parsed(Some(CpuMatch("3.2", "1.5", "95.0")))) ==
      map[CpuUser := 3.2, CpuSystem := 1.5, CpuIdle := 95.0, MgmtCpu := 4.7]
  {
    var m := CpuMatch("3.2", "1.5", "95.0");
    assert CaptureValues(m) == Some((3.2, 1.5, 95.0)) by {
      FloatOf3p2();
      FloatOf1p5();
      FloatOf95p0();
    }
  }

  /** A capture such as "1.2.3" matches `[0-9.]+` but fails `float()`: the whole group is {}. */
  lemma CpuFromTopBadCapture()
    ensures CpuFromTop(Parsed(Some(CpuMatch("1.2.3", "1.5", "95.0")))) == map[]
  {
    assert CaptureValues(CpuMatch("1.2.3", "1.5", "95.0")) == None by {
      FloatOf1p2p3();
      FloatOf1p5();
      FloatOf95p0();
    }
  }

  // ---------------------------------------------------------------------------
  // parse_dp_cpu_from_rm

  /** `any(v != int(v) for v in arr if v > 0)`: some positive value has a fractional part. */
  function AnyFractional(arr: seq<real>): (b: bool)
    ensures b <==> exists i :: 0 <= i < |arr| && arr[i] > 0.0 && arr[i] != arr[i].Floor as real
  {
    if arr == [] then false
    else
      var rest := AnyFractional(arr[1..]);
      assert forall i :: 1 <= i < |arr| ==> arr[i] == arr[1..][i - 1];
      (arr[0] > 0.0 && arr[0] != arr[0].Floor as real) || rest
  }

  /** The array is in fraction format: some positive value is fractional and none exceeds 1.0. */
  predicate FractionFormat(arr: seq<real>)
    requires |arr| > 0
  {
    AnyFractional(arr) && Max(arr) <= 1.0
  }

  /**
   * A core's newest value `arr[0]`, multiplied by 100 exactly when the array is in
   * fraction format; whole-number percentages are passed through.
   */
  function CoreNewest(arr: seq<real>): (r: real)
    requires |arr| > 0
    ensures r == arr[0] || r == arr[0] * 100.0
    ensures 0.0 <= arr[0] ==> 0.0 <= r
    ensures FractionFormat(arr) ==> r <= 100.0
  {
    if FractionFormat(arr) then arr[0] * 100.0 else arr[0]
  }

  /**
   * The scaling rule: the newest value is multiplied by 100 exactly when some positive
   * value has a fractional part and the maximum is at most 1.0.
   */
  lemma CoreNewestRule(arr: seq<real>)
    requires |arr| > 0
    ensures (exists i :: 0 <= i < |arr| && arr[i] > 0.0 && arr[i] != arr[i].Floor as real) && Max(arr) <= 1.0
      ==> CoreNewest(arr) == 100.0 * arr[0]
    ensures !((exists i :: 0 <= i < |arr| && arr[i] > 0.0 && arr[i] != arr[i].Floor as real) && Max(arr) <= 1.0)
      ==> CoreNewest(arr) == arr[0]
  {
  }

  /** What one core contributes: its (possibly rescaled) newest value, None when it has no number. */
  function CoreValue(text: string): (r: Option<real>)
    ensures r.Some? ==> r.value >= 0.0
  {
    var arr := CsvNumbers(text);
    if arr == [] then None else Some(CoreNewest(arr))
  }

  /** The newest value of every core whose value list holds a number, in document order. */
  function PerCoreLatest(texts: seq<string>): (r: seq<real>)
    ensures |r| <= |texts|
    ensures forall i :: 0 <= i < |r| ==> r[i] >= 0.0
  {
    if texts == [] then []
    else
      var v := CoreValue(texts[|texts| - 1]);
      PerCoreLatest(texts[..|texts| - 1]) + (if v.Some? then [v.value] else [])
  }

  /**
   * `parse_dp_cpu_from_rm` in collectors.py: mean, max and p95 of the per-core values,
   * `data_plane_cpu` equal to the mean, all four 0.0 when no core reports.
   */
  function DpCpuFromRm(reply: Xml<ResourceMonitor>): (r: map<Field, real>)
    ensures reply.Malformed? ==> r == map[]
    ensures reply.Parsed? ==> r.Keys == DpKeys && r[DpCpu] == r[DpCpuMean]
    ensures reply.Parsed? ==>
      r[DpCpuMean] <= r[DpCpuMax] && r[DpCpuP95] <= r[DpCpuMax]
    ensures reply.Parsed? && PerCoreLatest(reply.content.coreLoads) == [] ==>
      r == map[DpCpuMean := 0.0, DpCpuMax := 0.0,
               DpCpuP95 := 0.0, DpCpu := 0.0]
    ensures reply.Parsed? && PerCoreLatest(reply.content.coreLoads) != [] ==>
      var cores := PerCoreLatest(reply.content.coreLoads);
      && r[DpCpuMax] == Max(cores)
      && r[DpCpuMean] == Mean(cores)
      && r[DpCpuP95] == Aggregate(cores, Some("p95"))
      && r[DpCpuP95] in cores
  {
    match reply
    case Malformed => map[]
    case Parsed(rm) =>
      var cores := PerCoreLatest(rm.coreLoads);
      if cores == [] then
        map[DpCpuMean := 0.0, DpCpuMax := 0.0,
            DpCpuP95 := 0.0, DpCpu := 0.0]
      else CoreSummary(cores)
  }

  /** The four data-plane fields for a non-empty list of core loads. */
  function CoreSummary(cores: seq<real>): (r: map<Field, real>)
    requires cores != []
    ensures r.Keys == DpKeys && r[DpCpu] == r[DpCpuMean]
    ensures r[DpCpuMax] == Max(cores) && r[DpCpuMean] == Mean(cores)
    ensures r[DpCpuP95] == Aggregate(cores, Some("p95")) == Sorted(cores)[P95Index(|cores|)]
    ensures r[DpCpuMax] == Aggregate(cores, Some("max")) && r[DpCpuMean] == Aggregate(cores, Some("mean"))
    ensures r[DpCpuP95] in cores
    ensures r[DpCpuMean] <= r[DpCpuMax] && r[DpCpuP95] <= r[DpCpuMax]
  {
    AggregateNamedModes(cores);
    P95Bounds(cores);
    DpFields(Aggregate(cores, Some("mean")), Aggregate(cores, Some("max")), Aggregate(cores, Some("p95")))
  }

  /** The data-plane fields for a mean, a maximum and a p95; `data_plane_cpu` repeats the mean. */
  function DpFields(mean: real, max: real, p95: real): (r: map<Field, real>)
    ensures r.Keys == DpKeys
    ensures r[DpCpuMean] == mean && r[DpCpuMax] == max && r[DpCpuP95] == p95 && r[DpCpu] == mean
  {
    map[DpCpuMean := mean, DpCpuMax := max, DpCpuP95 := p95, DpCpu := mean]
  }

  /** `parse_dp_cpu_from_rm` in panos-monitor.py: one `data_plane_cpu`, aggregated by `mode`. */
  function DpCpuLive(reply: Xml<ResourceMonitor>, mode: Option<string>): (r: map<Field, real>)
    ensures reply.Malformed? ==> r == map[]
    ensures reply.Parsed? ==> r.Keys == {DpCpu} && r[DpCpu] >= 0.0
    ensures reply.Parsed? ==> r[DpCpu] == Aggregate(PerCoreLatest(reply.content.coreLoads), mode)
    ensures reply.Parsed? && PerCoreLatest(reply.content.coreLoads) == [] ==> r[DpCpu] == 0.0
    ensures reply.Parsed? && PerCoreLatest(reply.content.coreLoads) != [] ==>
      var cores := PerCoreLatest(reply.content.coreLoads);
      Min(cores) <= r[DpCpu] <= Max(cores)
  {
    match reply
    case Malformed => map[]
    case Parsed(rm) =>
      var cores := PerCoreLatest(rm.coreLoads);
      var v := Aggregate(cores, mode);
      assert cores != [] ==> Min(cores) >= 0.0 by {
        if cores != [] {
          var i :| 0 <= i < |cores| && cores[i] == Min(cores);
        }
      }
      map[DpCpu := v]
  }

  // ---------------------------------------------------------------------------
  // parse_pbuf_live_from_rm

  /** The lower-cased entry name contains "packet buffer (maximum)". */
  predicate IsPbufMaximum(name: string) {
    Contains(Lower(name), "packet buffer (maximum)")
  }

  /** The newest value of every packet-buffer-maximum entry that holds a number, in order. */
  function PbufLatest(entries: seq<UtilEntry>): (r: seq<real>)
    ensures |r| <= |entries|
    ensures forall i :: 0 <= i < |r| ==> r[i] >= 0.0
  {
    if entries == [] then []
    else
      var e := entries[|entries| - 1];
      var arr := CsvNumbers(e.value);
      PbufLatest(entries[..|entries| - 1]) + (if IsPbufMaximum(e.name) && arr != [] then [arr[0]] else [])
  }

  /**
   * `parse_pbuf_live_from_rm` (the same in both files): the mean of the newest values,
   * 0.0 when no entry qualifies.
   */
  function PbufFromRm(reply: Xml<ResourceMonitor>): (r: map<Field, real>)
    ensures reply.Malformed? ==> r == map[]
    ensures reply.Parsed? ==> r.Keys == {PbufUtil} && r[PbufUtil] >= 0.0
    ensures reply.Parsed? && PbufLatest(reply.content.utilisation) == [] ==> r[PbufUtil] == 0.0
    ensures reply.Parsed? && PbufLatest(reply.content.utilisation) != [] ==>
      r[PbufUtil] == Mean(PbufLatest(reply.content.utilisation))
  {
    match reply
    case Malformed => map[]
    case Parsed(rm) =>
      var vals := PbufLatest(rm.utilisation);
      assert vals != [] ==> Min(vals) >= 0.0 by {
        if vals != [] {
          var i :| 0 <= i < |vals| && vals[i] == Min(vals);
        }
      }
      var mean := Aggregate(vals, Some("mean"));
      assert vals != [] ==> mean == Mean(vals) by {
        if vals != [] { AggregateNamedModes(vals); }
      }
      map[PbufUtil := mean]
  }

  lemma {:induction false} PbufLatestAppend(a: seq<UtilEntry>, b: seq<UtilEntry>)
    ensures PbufLatest(a + b) == PbufLatest(a) + PbufLatest(b)
  {
    if b == [] {
      assert a + b == a;
    } else {
      var n := |b| - 1;
      assert (a + b)[..|a + b| - 1] == a + b[..n];
      PbufLatestAppend(a, b[..n]);
    }
  }

  /** An entry whose name is not a packet-buffer maximum contributes nothing, wherever it is. */
  lemma PbufIgnoresOtherEntries(a: seq<UtilEntry>, e: UtilEntry, b: seq<UtilEntry>)
    requires !IsPbufMaximum(e.name)
    ensures PbufLatest(a + [e] + b) == PbufLatest(a + b)
  {
    PbufLatestAppend(a + [e], b);
    assert (a + [e])[..|a|] == a;
    assert PbufLatest(a + [e]) == PbufLatest(a);
    PbufLatestAppend(a, b);
  }

  /** A qualifying entry contributes the first number of its value list. */
  lemma PbufTakesNewest(a: seq<UtilEntry>, e: UtilEntry)
    requires IsPbufMaximum(e.name) && CsvNumbers(e.value) != []
    ensures PbufLatest(a + [e]) == PbufLatest(a) + [CsvNumbers(e.value)[0]]
  {
    assert (a + [e])[..|a + [e]| - 1] == a;
  }

  // ---------------------------------------------------------------------------
  // parse_throughput_from_session_info

  /**
   * `parse_throughput_from_session_info` (the same in both files): throughput in Mbps
   * as kbps / 1000 and packets per second; a missing or non-numeric field is omitted.
   */
  function ThroughputFromSessionInfo(reply: Xml<SessionInfo>): (r: map<Field, real>)
    ensures reply.Malformed? ==> r == map[]
    ensures r.Keys <= ThroughputKeys
    ensures ThroughputMbps in r <==> reply.Parsed? && FieldFloat(reply.content.kbps).Some?
    ensures ThroughputMbps in r ==> r[ThroughputMbps] == FieldFloat(reply.content.kbps).value / 1000.0
    ensures PpsTotal in r <==> reply.Parsed? && FieldFloat(reply.content.pps).Some?
    ensures PpsTotal in r ==> r[PpsTotal] == FieldFloat(reply.content.pps).value
  {
    match reply
    case Malformed => map[]
    case Parsed(info) =>
      var kbps, pps := FieldFloat(info.kbps), FieldFloat(info.pps);
      var thr: map<Field, real> := if kbps.Some? then map[ThroughputMbps := kbps.value / 1000.0] else map[];
      if pps.Some? then thr[PpsTotal := pps.value] else thr
  }

  /** `float(text)` of a field that is present; None when it is absent or does not convert. */
  function FieldFloat(text: Option<string>): Option<real> {
    if text.Some? then ParseFloat(text.value) else None
  }

  /** A session-info reply of 1500 kbps and 250 pps gives 1.5 Mbps and 250 pps. */
  lemma ThroughputExample()
    ensures ThroughputFromSessionInfo(Parsed(SessionInfo(Some("1500"), Some("250"))))
      == map[ThroughputMbps := 1.5, PpsTotal := 250.0]
  {
    FloatOf1500();
    FloatOf250();
    ThroughputOfBoth("1500", "250", 1500.0, 250.0);
  }

  /** A reply whose two fields convert reports Mbps as kbps / 1000 and the pps as given. */
  lemma ThroughputOfBoth(k: string, p: string, kv: real, pv: real)
    requires FieldFloat(Some(k)) == Some(kv) && FieldFloat(Some(p)) == Some(pv)
    ensures ThroughputFromSessionInfo(Parsed(SessionInfo(Some(k), Some(p))))
      == map[ThroughputMbps := kv / 1000.0, PpsTotal := pv]
  {
  }

  /** A reply whose kbps does not convert reports the pps alone. */
  lemma ThroughputOfPps(k: string, p: string, pv: real)
    requires FieldFloat(Some(k)) == None && FieldFloat(Some(p)) == Some(pv)
    ensures ThroughputFromSessionInfo(Parsed(SessionInfo(Some(k), Some(p)))) == map[PpsTotal := pv]
  {
  }

  /** A non-numeric kbps is dropped while pps is still reported. */
  lemma ThroughputSkipsBadKbps()
    ensures ThroughputFromSessionInfo(Parsed(SessionInfo(Some("n/a"), Some("250"))))
      == map[PpsTotal := 250.0]
  {
    FloatOfNa();
    FloatOf250();
    ThroughputOfPps("n/a", "250", 250.0);
  }

  // ---------------------------------------------------------------------------
  // Properties of the data-plane CPU step

  /** Whole-number percentages (PAN-OS's usual format) are never rescaled. */
  lemma CoreNewestWholePercent(arr: seq<real>)
    requires |arr| > 0
    requires forall i :: 0 <= i < |arr| ==> arr[i] == arr[i].Floor as real
    ensures CoreNewest(arr) == arr[0]
  {
  }

  /** A fraction-format array of non-negative values becomes a percentage in [0, 100]. */
  lemma CoreNewestFractionIsPercent(arr: seq<real>)
    requires |arr| > 0 && FractionFormat(arr)
    requires forall i :: 0 <= i < |arr| ==> arr[i] >= 0.0
    ensures 0.0 <= CoreNewest(arr) <= 100.0
  {
    assert arr[0] <= Max(arr);
  }

  /** `[0.5, 0.25]` is in fraction format (0.5 becomes 50); `[85.0, 0.5]` is not, as its maximum exceeds 1.0. */
  lemma CoreNewestExamples()
    ensures CoreNewest([0.5, 0.25]) == 50.0
    ensures CoreNewest([85.0, 0.5]) == 85.0
  {
    assert AnyFractional([0.5, 0.25]) by { assert (0.5).Floor == 0; }
    assert Max([0.5, 0.25]) == 0.5;
    assert Max([85.0, 0.5]) == 85.0;
  }

  /**
   * When every core reports, the per-core list has one value per core, each the newest
   * (possibly rescaled) value of that core.
   */
  lemma PerCoreLatestAllReport(texts: seq<string>)
    requires forall i :: 0 <= i < |texts| ==> CoreValue(texts[i]).Some?
    ensures |PerCoreLatest(texts)| == |texts|
    ensures forall i :: 0 <= i < |texts| ==> PerCoreLatest(texts)[i] == CoreValue(texts[i]).value
  {
    assert AllCoresReport(texts);
    PerCoreLatestLength(texts);
    forall i | 0 <= i < |texts|
      ensures PerCoreLatest(texts)[i] == CoreValue(texts[i]).value
    {
      PerCoreLatestAt(texts, i);
    }
  }

  /** Every core's value list holds a number. */
  predicate AllCoresReport(texts: seq<string>) {
    forall i :: 0 <= i < |texts| ==> CoreValue(texts[i]).Some?
  }

  /** The cores before a point all report when every core does. */
  lemma AllCoresReportPrefix(texts: seq<string>, n: nat)
    requires AllCoresReport(texts) && n <= |texts|
    ensures AllCoresReport(texts[..n])
  {
    assert forall j :: 0 <= j < n ==> texts[..n][j] == texts[j];
  }

  /** When every core reports, there is one value per core. */
  lemma {:induction false} PerCoreLatestLength(texts: seq<string>)
    requires AllCoresReport(texts)
    ensures |PerCoreLatest(texts)| == |texts|
  {
    if texts != [] {
      var n := |texts| - 1;
      AllCoresReportPrefix(texts, n);
      PerCoreLatestLength(texts[..n]);
      PerCoreLatestLast(texts);
    }
  }

  /** When every core reports, the `i`-th value is the `i`-th core's own. */
  lemma {:induction false} PerCoreLatestAt(texts: seq<string>, i: nat)
    requires AllCoresReport(texts) && i < |texts|
    ensures i < |PerCoreLatest(texts)| && PerCoreLatest(texts)[i] == CoreValue(texts[i]).value
    decreases |texts|, 1
  {
    var n := |texts| - 1;
    if i < n {
      PerCoreLatestFront(texts, i);
    } else {
      AllCoresReportPrefix(texts, n);
      PerCoreLatestLength(texts[..n]);
      PerCoreLatestLast(texts);
    }
  }

  /** Before the last core, the values are those of the cores before it. */
  lemma {:induction false} PerCoreLatestFront(texts: seq<string>, i: nat)
    requires AllCoresReport(texts) && i < |texts| - 1
    ensures i < |PerCoreLatest(texts)| && PerCoreLatest(texts)[i] == CoreValue(texts[i]).value
    decreases |texts|, 0
  {
    var pre := texts[..|texts| - 1];
    AllCoresReportPrefix(texts, |texts| - 1);
    PerCoreLatestLast(texts);
    PerCoreLatestAt(pre, i);
    assert pre[i] == texts[i];
  }

  lemma PerCoreLatestLast(texts: seq<string>)
    requires texts != [] && CoreValue(texts[|texts| - 1]).Some?
    ensures PerCoreLatest(texts) == PerCoreLatest(texts[..|texts| - 1]) + [CoreValue(texts[|texts| - 1]).value]
  {
  }

  /** With no core values at all, every data-plane field is 0.0. */
  lemma DpCpuNoCores()
    ensures DpCpuFromRm(Parsed(ResourceMonitor([], []))) ==
      map[DpCpuMean := 0.0, DpCpuMax := 0.0,
          DpCpuP95 := 0.0, DpCpu := 0.0]
  {
  }

  // ---------------------------------------------------------------------------
  // `float()` of the literals used in the examples above

  lemma FloatOf3p2()
    ensures ParseFloat("3.2") == Some(3.2)
  {
    ParseFloatUnsigned("3.2");
    BodyOfTenths();
  }

  lemma FloatOf1p5()
    ensures ParseFloat("1.5") == Some(1.5)
  {
    ParseFloatUnsigned("1.5");
    BodyOfTenths();
  }

  lemma FloatOf95p0()
    ensures ParseFloat("95.0") == Some(95.0)
  {
    ParseFloatUnsigned("95.0");
    BodyOfNinetyFive();
  }

  lemma FloatOf1500()
    ensures ParseFloat("1500") == Some(1500.0)
  {
    ParseFloatUnsigned("1500");
    BodyOfWholes();
  }

  lemma FloatOf250()
    ensures ParseFloat("250") == Some(250.0)
  {
    ParseFloatUnsigned("250");
    BodyOfWholes();
  }

  lemma FloatOf1p2p3()
    ensures ParseFloat("1.2.3") == None
  {
    ParseFloatUnsigned("1.2.3");
    BodyOfNonNumbers();
  }

  lemma FloatOfNa()
    ensures ParseFloat("n/a") == None
  {
    ParseFloatUnsigned("n/a");
    BodyOfNonNumbers();
  }

  lemma BodyOfTenths()
    ensures DecimalBody("3.2") == Some(3.2) && DecimalBody("1.5") == Some(1.5)
  {
    assert DotIndex("3.2") == 1 && DotIndex("1.5") == 1;
    assert "3.2"[..1] == "3" && "3.2"[2..] == "2" && "1.5"[..1] == "1" && "1.5"[2..] == "5";
    assert "3"[..0] == "" && "2"[..0] == "" && "1"[..0] == "" && "5"[..0] == "";
    assert Pow10(1) == 10;
  }

  lemma BodyOfNinetyFive()
    ensures DecimalBody("95.0") == Some(95.0)
  {
    assert DotIndex("95.0") == 2;
    assert "95.0"[..2] == "95" && "95.0"[3..] == "0";
    assert "95"[..1] == "9" && "9"[..0] == "" && "0"[..0] == "";
    assert Pow10(1) == 10;
  }

  lemma BodyOfWholes()
    ensures DecimalBody("1500") == Some(1500.0) && DecimalBody("250") == Some(250.0)
  {
    assert DotIndex("1500") == 4 && DotIndex("250") == 3;
    assert "1500"[..3] == "150" && "150"[..2] == "15" && "15"[..1] == "1" && "1"[..0] == "";
    assert "250"[..2] == "25" && "25"[..1] == "2" && "2"[..0] == "";
  }

  lemma BodyOfNonNumbers()
    ensures DecimalBody("1.2.3") == None && DecimalBody("n/a") == None
  {
    assert DotIndex("1.2.3") == 1;
    assert "1.2.3"[2..] == "2.3" && !IsDigit("2.3"[1]);
    assert DotIndex("n/a") == 3;
  }
}
