/**
 * A metrics record: the dictionary a poll fills, keyed by field name. Parsers produce
 * float-valued dictionaries; the record also holds a timestamp, a firewall name, and
 * (in the live monitor) fields still set to None.
 */
module Records {
  /** The fields a poll can fill; `Key` gives each one's dictionary key. */
  datatype Field =
    | CpuUser | CpuSystem | CpuIdle | MgmtCpu
    | DpCpuMean | DpCpuMax | DpCpuP95 | DpCpu
    | PbufUtil | ThroughputMbps | PpsTotal
    | Timestamp | FirewallName

  function Key(f: Field): string {
    match f
    case CpuUser => "cpu_user"
    case CpuSystem => "cpu_system"
    case CpuIdle => "cpu_idle"
    case MgmtCpu => "mgmt_cpu"
    case DpCpuMean => "data_plane_cpu_mean"
    case DpCpuMax => "data_plane_cpu_max"
    case DpCpuP95 => "data_plane_cpu_p95"
    case DpCpu => "data_plane_cpu"
    case PbufUtil => "pbuf_util_percent"
    case ThroughputMbps => "throughput_mbps_total"
    case PpsTotal => "pps_total"
    case Timestamp => "timestamp"
    case FirewallName => "firewall_name"
  }

  /** A record value: None, a float, a poll timestamp (seconds) or a string. */
  datatype Value = Null | Num(x: real) | Stamp(t: real) | Str(s: string)

  type Record = map<Field, Value>

  /**
   * `record.update({k: v for k, v in d.items() if v is not None})` with a parser's output
   * (whose values are all floats): every parsed field is written, every other field kept.
   */
  function Merge(rec: Record, d: map<Field, real>): (r: Record)
    ensures r.Keys == rec.Keys + d.Keys
    ensures forall k :: k in d ==> r[k] == Num(d[k])
    ensures forall k :: k in rec && k !in d ==> r[k] == rec[k]
  {
    rec + Nums(d)
  }

  /** A parser's output as record values. */
  function Nums(d: map<Field, real>): (r: map<Field, Value>)
    ensures r.Keys == d.Keys
    ensures forall k :: k in d ==> r[k] == Num(d[k])
  {
    map k | k in d :: Num(d[k])
  }

  /** A merge never turns a field that holds a value back into None. */
  lemma MergeKeepsValues(rec: Record, d: map<Field, real>, k: Field)
    requires k in rec && rec[k] != Null
    ensures k in Merge(rec, d) && Merge(rec, d)[k] != Null
  {
  }

  /** Merging an empty parser output (a parser that failed) changes nothing. */
  lemma MergeEmpty(rec: Record)
    ensures Merge(rec, map[]) == rec
  {
  }

  /** Later merges win: merging `d1` then `d2` is merging their union with `d2` preferred. */
  lemma MergeTwice(rec: Record, d1: map<Field, real>, d2: map<Field, real>)
    ensures Merge(Merge(rec, d1), d2) == Merge(rec, d1 + d2)
  {
  }
}
