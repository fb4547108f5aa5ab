/**
 * `StatsCollector` of panos-monitor.py: each poll builds one record from three
 * replies and appends it to a rolling series of at most `max_points` records; the main
 * loop polls, counts the polls and sleeps out the interval.
 *
 * A reply is None when the client's request raised (that group is skipped); the
 * environment is a map; `now` stamps the record.
 */
module LiveMonitor {
  import opened Wrappers
  import opened Records
  import opened Aggregation
  import opened Parsers
  import opened Config
  import opened Scheduling

  /** `CPU_FIELDS + THR_FIELDS + PBUF_FIELDS`: the fields every record starts with, as None. */
  const LiveFields: set<Field> := {CpuUser, CpuSystem, CpuIdle, MgmtCpu, DpCpu, ThroughputMbps, PpsTotal, PbufUtil}

  /** The live monitor keeps the most recent thousand records. */
  const MaxPoints: nat := 1000

  /** The replies of one poll: top, the resource monitor and session info. */
  datatype PollReplies = PollReplies(
    top: Option<Xml<Option<CpuMatch>>>,
    resourceMonitor: Option<Xml<ResourceMonitor>>,
    sessionInfo: Option<Xml<SessionInfo>>)

  /** The record before any parser runs: every live field None, and the timestamp. */
  function InitialRecord(now: real): (r: Record)
    ensures r.Keys == LiveFields + {Timestamp}
    ensures forall f :: f in LiveFields ==> r[f] == Null
    ensures r[Timestamp] == Stamp(now)
  {
    (map f | f in LiveFields :: Null)[Timestamp := Stamp(now)]
  }

  /** The top fields, or none when the request raised. */
  function TopGroup(replies: PollReplies): (d: map<Field, real>)
    ensures d == map[] || (d.Keys == CpuKeys && d[MgmtCpu] == d[CpuUser] + d[CpuSystem])
  {
    if replies.top.Some? then CpuFromTop(replies.top.value) else map[]
  }

  /** The data-plane CPU aggregated in `mode`, or nothing when the request raised. */
  function DpGroup(replies: PollReplies, mode: string): (d: map<Field, real>)
    ensures d.Keys <= {DpCpu}
  {
    if replies.resourceMonitor.Some? then DpCpuLive(replies.resourceMonitor.value, Some(mode)) else map[]
  }

  /** The packet-buffer utilisation, or nothing when the request raised. */
  function PbufGroup(replies: PollReplies): (d: map<Field, real>)
    ensures d.Keys <= {PbufUtil}
  {
    if replies.resourceMonitor.Some? then PbufFromRm(replies.resourceMonitor.value) else map[]
  }

  /** The throughput fields, or none when the request raised. */
  function ThroughputGroup(replies: PollReplies): (d: map<Field, real>)
    ensures d.Keys <= ThroughputKeys
  {
    if replies.sessionInfo.Some? then ThroughputFromSessionInfo(replies.sessionInfo.value) else map[]
  }

  /** The initial record with the four groups merged over it in `poll_once`'s order. */
  function Assemble(now: real, top: map<Field, real>, dp: map<Field, real>, pbuf: map<Field, real>,
                    thr: map<Field, real>): Record
  {
    Merge(Merge(Merge(Merge(InitialRecord(now), top), dp), pbuf), thr)
  }

  /**
   * `poll_once`'s record: the initial record, then the top fields, the data-plane CPU
   * aggregated as `DP_AGGREGATION` says (mean when unset), the packet buffer, and the
   * throughput, each merged over what is there.
   */
  function PollRecord(now: real, replies: PollReplies, env: Env): (r: Record)
    ensures r.Keys == LiveFields + {Timestamp}
    ensures r[Timestamp] == Stamp(now)
  {
    var mode := EnvGet(env, "DP_AGGREGATION", "mean");
    AssembleFields(now, TopGroup(replies), DpGroup(replies, mode), PbufGroup(replies), ThroughputGroup(replies));
    Assemble(now, TopGroup(replies), DpGroup(replies, mode), PbufGroup(replies), ThroughputGroup(replies))
  }

  /** A merge of fields the record already has leaves its set of fields as it was. */
  lemma MergeWithin(rec: Record, d: map<Field, real>)
    requires d.Keys <= rec.Keys
    ensures Merge(rec, d).Keys == rec.Keys
  {
  }

  /** Groups of live fields leave the record with exactly the live fields and the timestamp. */
  lemma AssembleFields(now: real, top: map<Field, real>, dp: map<Field, real>, pbuf: map<Field, real>,
                       thr: map<Field, real>)
    requires top.Keys <= CpuKeys && dp.Keys <= {DpCpu} && pbuf.Keys <= {PbufUtil} && thr.Keys <= ThroughputKeys
    ensures Assemble(now, top, dp, pbuf, thr).Keys == LiveFields + {Timestamp}
    ensures Assemble(now, top, dp, pbuf, thr)[Timestamp] == Stamp(now)
  {
    var r0 := InitialRecord(now);
    MergeWithin(r0, top);
    var r1 := Merge(r0, top);
    MergeWithin(r1, dp);
    var r2 := Merge(r1, dp);
    MergeWithin(r2, pbuf);
    var r3 := Merge(r2, pbuf);
    MergeWithin(r3, thr);
  }

  /** Management CPU is None, or the sum of user and system CPU, both present. */
  predicate MgmtConsistent(r: Record) {
    MgmtCpu in r && CpuUser in r && CpuSystem in r &&
    (r[MgmtCpu] != Null ==>
      (r[MgmtCpu].Num? && r[CpuUser].Num? && r[CpuSystem].Num? && r[MgmtCpu].x == r[CpuUser].x + r[CpuSystem].x))
  }

  /** The top group leaves management CPU consistent with user and system CPU. */
  lemma TopMergeConsistent(now: real, top: map<Field, real>)
    requires top == map[] || (top.Keys == CpuKeys && top[MgmtCpu] == top[CpuUser] + top[CpuSystem])
    ensures MgmtConsistent(Merge(InitialRecord(now), top))
  {
    var r0 := InitialRecord(now);
    var r1 := Merge(r0, top);
    if top == map[] {
      assert MgmtCpu in r0 && MgmtCpu !in top;
      assert r1[MgmtCpu] == Null;
    } else {
      assert r1[MgmtCpu] == Num(top[MgmtCpu]) && r1[CpuUser] == Num(top[CpuUser]) && r1[CpuSystem] == Num(top[CpuSystem]);
    }
  }

  /** A group without CPU fields keeps management CPU consistent. */
  lemma MergeKeepsConsistent(rec: Record, d: map<Field, real>)
    requires MgmtConsistent(rec) && d.Keys !! CpuKeys
    ensures MgmtConsistent(Merge(rec, d))
  {
    CpuFieldsKept(rec, d);
  }

  /** With top's fields consistent and the other groups free of CPU fields, the CPU fields are top's. */
  lemma AssembleMgmtCpu(now: real, top: map<Field, real>, dp: map<Field, real>, pbuf: map<Field, real>,
                        thr: map<Field, real>)
    requires top == map[] || (top.Keys == CpuKeys && top[MgmtCpu] == top[CpuUser] + top[CpuSystem])
    requires dp.Keys <= {DpCpu} && pbuf.Keys <= {PbufUtil} && thr.Keys <= ThroughputKeys
    ensures MgmtConsistent(Assemble(now, top, dp, pbuf, thr))
  {
    var r1 := Merge(InitialRecord(now), top);
    TopMergeConsistent(now, top);
    MergeKeepsConsistent(r1, dp);
    var r2 := Merge(r1, dp);
    MergeKeepsConsistent(r2, pbuf);
    var r3 := Merge(r2, pbuf);
    MergeKeepsConsistent(r3, thr);
  }

  /** Management CPU, when a poll fills it, is user plus system CPU of the same reply. */
  lemma PollRecordMgmtCpu(now: real, replies: PollReplies, env: Env)
    ensures MgmtConsistent(PollRecord(now, replies, env))
  {
    var mode := EnvGet(env, "DP_AGGREGATION", "mean");
    AssembleMgmtCpu(now, TopGroup(replies), DpGroup(replies, mode), PbufGroup(replies), ThroughputGroup(replies));
  }

  /** A merge without CPU fields keeps the record's CPU fields. */
  lemma CpuFieldsKept(rec: Record, d: map<Field, real>)
    requires CpuUser in rec && CpuSystem in rec && MgmtCpu in rec
    requires d.Keys !! CpuKeys
    ensures var r := Merge(rec, d);
      r[CpuUser] == rec[CpuUser] && r[CpuSystem] == rec[CpuSystem] && r[MgmtCpu] == rec[MgmtCpu]
  {
  }

  /** Without any reply, the record is the timestamp and all live fields None. */
  lemma PollWithoutReplies(now: real, env: Env)
    ensures PollRecord(now, PollReplies(None, None, None), env) == InitialRecord(now)
  {
    MergeEmpty(InitialRecord(now));
    MergeEmpty(Merge(InitialRecord(now), map[]));
  }

  /**
   * A readable resource monitor always fills the data-plane CPU with the per-core loads
   * aggregated as `DP_AGGREGATION` says, and the packet buffer with the mean of the
   * qualifying entries (0.0 when there are none).
   */
  lemma PollFillsDataPlane(now: real, replies: PollReplies, env: Env)
    requires replies.resourceMonitor.Some? && replies.resourceMonitor.value.Parsed?
    ensures var r := PollRecord(now, replies, env);
      var rm := replies.resourceMonitor.value.content;
      && r[DpCpu] == Num(Aggregate(PerCoreLatest(rm.coreLoads), Some(EnvGet(env, "DP_AGGREGATION", "mean"))))
      && r[PbufUtil] == Num(if PbufLatest(rm.utilisation) == [] then 0.0 else Mean(PbufLatest(rm.utilisation)))
  {
    var thr := ThroughputGroup(replies);
    assert DpCpu !in thr && PbufUtil !in thr;
  }

  // ---------------------------------------------------------------------------
  // The rolling series

  /** The last `n` elements of `s` (all of them when there are fewer). */
  function Latest<T>(s: seq<T>, n: nat): (r: seq<T>)
    ensures |r| == if |s| <= n then |s| else n
  {
    if |s| <= n then s else s[|s| - n..]
  }

  /** The series after one more record: the record is last and the rest is a suffix of the history. */
  lemma LatestAppend<T>(s: seq<T>, x: T, n: nat)
    requires n > 0
    ensures var r := Latest(s + [x], n);
      && |r| <= n && r[|r| - 1] == x
      && r[..|r| - 1] == Latest(s, n - 1)
  {
  }

  /** Trimming a trimmed series after an append is trimming the whole history. */
  lemma LatestOfLatest<T>(s: seq<T>, x: T, n: nat)
    ensures Latest(Latest(s, n) + [x], n) == Latest(s + [x], n)
  {
    if |s| > n {
      var t := s[|s| - n..];
      assert |t + [x]| == n + 1;
      assert (t + [x])[1..] == (s + [x])[|s| + 1 - n..];
    }
  }

  class StatsCollector {
    var rows: seq<Record>
    ghost var polls: seq<Record>
    const maxPoints: nat

    /** The rows are the most recent `max_points` records of every poll so far. */
    ghost predicate Valid()
      reads this
    {
      maxPoints == MaxPoints && rows == Latest(polls, maxPoints)
    }

    constructor()
      ensures Valid() && rows == [] && polls == []
    {
      rows, polls := [], [];
      maxPoints := MaxPoints;
    }

    /**
     * `poll_once`: the record is built from the replies, appended to the rows, and the
     * oldest rows are deleted beyond `max_points`.
     */
    method PollOnce(now: real, replies: PollReplies, env: Env) returns (rec: Record)
      requires Valid()
      modifies this
      ensures Valid()
      ensures rec == PollRecord(now, replies, env)
      ensures polls == old(polls) + [rec]
      ensures |rows| <= maxPoints && rows[|rows| - 1] == rec
    {
      rec := BuildRecord(now, replies, env);
      LatestOfLatest(polls, rec, maxPoints);
      rows := rows + [rec];
      polls := polls + [rec];
      if |rows| > maxPoints {
        rows := rows[|rows| - maxPoints..];
      }
    }
  }

  /** The record-building half of `poll_once`: each group is tried in turn and merged. */
  method BuildRecord(now: real, replies: PollReplies, env: Env) returns (rec: Record)
    ensures rec == PollRecord(now, replies, env)
  {
    var mode := EnvGet(env, "DP_AGGREGATION", "mean");
    rec := InitialRecord(now);
    rec := Merge(rec, TopGroup(replies));
    rec := Merge(rec, DpGroup(replies, mode));
    rec := Merge(rec, PbufGroup(replies));
    rec := Merge(rec, ThroughputGroup(replies));
  }

  /** One pass of the main loop: when the poll happened, what it got back, and how long it took. */
  datatype PollInput = PollInput(now: real, replies: PollReplies, elapsed: real)

  /** The records of a run of polls, in poll order. */
  function PollRecords(inputs: seq<PollInput>, env: Env): (r: seq<Record>)
    ensures |r| == |inputs|
  {
    if inputs == [] then []
    else
      var last := inputs[|inputs| - 1];
      PollRecords(inputs[..|inputs| - 1], env) + [PollRecord(last.now, last.replies, env)]
  }

  lemma PollRecordsStep(inputs: seq<PollInput>, k: nat, env: Env)
    requires k < |inputs|
    ensures PollRecords(inputs[..k + 1], env) == PollRecords(inputs[..k], env) + [PollRecord(inputs[k].now, inputs[k].replies, env)]
  {
    assert inputs[..k + 1][..k] == inputs[..k];
  }

  /** Appending to a history extends its last part. */
  lemma AppendAfter<T>(before: seq<T>, done: seq<T>, x: T)
    ensures (before + done) + [x] == before + (done + [x])
  {
  }

  /**
   * The body of the main loop for the `k`-th input: poll once, then sleep for what is
   * left of the interval.
   */
  method MainLoopIteration(c: StatsCollector, inputs: seq<PollInput>, k: nat, env: Env, interval: int,
                           ghost before: seq<Record>)
    returns (sleep: real)
    requires c.Valid() && k < |inputs|
    requires c.polls == before + PollRecords(inputs[..k], env)
    modifies c
    ensures c.Valid()
    ensures c.polls == before + PollRecords(inputs[..k + 1], env)
    ensures sleep == SleepTime(interval as real, inputs[k].elapsed)
  {
    ghost var done := PollRecords(inputs[..k], env);
    PollRecordsStep(inputs, k, env);
    var rec := c.PollOnce(inputs[k].now, inputs[k].replies, env);
    AppendAfter(before, done, rec);
    sleep := SleepTime(interval as real, inputs[k].elapsed);
  }

  /**
   * Each sleep so far is what was left of the interval after its poll. It stays within
   * the interval exactly when the clock did not go back during that poll.
   */
  predicate SleepsOf(sleeps: seq<real>, inputs: seq<PollInput>, interval: real) {
    |sleeps| <= |inputs| &&
    forall k :: 0 <= k < |sleeps| ==>
      sleeps[k] == SleepTime(interval, inputs[k].elapsed) && 0.0 <= sleeps[k]
      && (sleeps[k] <= interval <==> inputs[k].elapsed >= 0.0)
  }

  /** One more poll's sleep extends the record of sleeps. */
  lemma SleepsStep(sleeps: seq<real>, inputs: seq<PollInput>, interval: real)
    requires SleepsOf(sleeps, inputs, interval) && |sleeps| < |inputs|
    requires interval >= 0.0
    ensures SleepsOf(sleeps + [SleepTime(interval, inputs[|sleeps|].elapsed)], inputs, interval)
  {
    if inputs[|sleeps|].elapsed >= 0.0 {
      SleepWithinInterval(interval, inputs[|sleeps|].elapsed);
    }
  }

  /**
   * The main loop over the polls it gets to make, at `max(1, int(args.interval))`
   * seconds: every poll counts, the rows stay the latest `max_points` records of all
   * polls so far, and no sleep is negative. A sleep is longer than the interval only
   * after a poll during which the wall clock was set back.
   */
  method MonitorLoop(c: StatsCollector, inputs: seq<PollInput>, env: Env, requested: int)
    returns (pollCount: nat, sleeps: seq<real>)
    requires c.Valid()
    modifies c
    ensures c.Valid()
    ensures pollCount == |inputs| && |sleeps| == |inputs|
    ensures c.polls == old(c.polls) + PollRecords(inputs, env)
    ensures SleepsOf(sleeps, inputs, PollInterval(requested) as real)
  {
    var interval := PollInterval(requested);
    pollCount, sleeps := 0, [];
    while pollCount < |inputs|
      invariant c.Valid()
      invariant pollCount <= |inputs| && |sleeps| == pollCount
      invariant c.polls == old(c.polls) + PollRecords(inputs[..pollCount], env)
      invariant SleepsOf(sleeps, inputs, interval as real)
    {
      var sleep := MainLoopIteration(c, inputs, pollCount, env, interval, old(c.polls));
      SleepsStep(sleeps, inputs, interval as real);
      sleeps := sleeps + [sleep];
      pollCount := pollCount + 1;
    }
    assert inputs[..pollCount] == inputs;
  }
}
