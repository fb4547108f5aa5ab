# PAN-OS monitor: a verified model of the collection core

PALO-PANOS-MONITOR polls Palo Alto Networks PAN-OS firewalls over their XML API and
keeps time series of what it sees. It records management CPU, data-plane CPU, packet
buffer use, throughput and per-interface bandwidth. This project models the part of it
that computes and keeps those numbers:

- the value extraction and aggregation helpers (`_numbers_from_csv`, `_aggregate`);
- the reply parsers for `top`, the resource monitor and session info;
- the per-firewall collector and the multi-firewall collector's bookkeeping (collectors.py);
- the single-firewall live collector with its rolling buffer and main loop (panos-monitor.py);
- the configuration manager (config.py);
- both interface monitors: interface_monitor.py (32-bit counter wrap, auto-discovery) and
  interface_monitor_fixed.py (32/64-bit wrap heuristic, authentication checks, failure counter);
- the bounded put-or-drop queue that tests/test_collectors.py describes.

The model takes no network I/O. The client's replies arrive as parameters. `None`
stands for a request that returned nothing. `Malformed` stands for a reply the XML
parser rejects. `Parsed(...)` carries the values the XML lookups and regular
expressions would have extracted. Clock readings arrive as `real` seconds, the
environment as a map, and rates and means are exact `real` numbers.

Modules, one per file:

| module | file | models |
|---|---|---|
| `Wrappers` | wrappers.dfy | `Option` |
| `Text` | text.dfy | the Python string operations the code uses: `strip`, `lower`, `capitalize`, `split`, `replace`, `int()`, `float()` on decimal text |
| `Records` | records.dfy | metric records (field to value or `None`) and `dict.update` |
| `Aggregation` | aggregation.dfy | `_numbers_from_csv`, `_aggregate` |
| `Parsers` | parsers.dfy | `parse_cpu_from_top`, `parse_dp_cpu_from_rm` (both versions), `parse_pbuf_live_from_rm`, `parse_throughput_from_session_info` |
| `Scheduling` | scheduling.dfy | the interval and sleep arithmetic of the polling loops |
| `Collectors` | collectors.dfy | `FirewallCollector`, `MultiFirewallCollector` |
| `FanIn` | fan_in.dfy | the bounded queue with its drop counter and rate-limited warning |
| `LiveMonitor` | live_monitor.dfy | `StatsCollector.poll_once` and the main loop of panos-monitor.py |
| `Config` | config.dfy | `ConfigManager` |
| `InterfaceRates` | interface_rates.dfy | both `calculate_interface_metrics` |
| `InterfacePolicy` | interface_policy.dfy | interface configurations, `_should_monitor_interface`, `_generate_display_name` |
| `InterfaceParsers` | interface_parsers.dfy | `parse_interface_statistics`, `parse_session_statistics`, `discover_interfaces_panos11` |
| `InterfaceSeries` | interface_series.dfy | the per-interface sample and rate lists, the 24-hour pruning, `get_session_stats` |
| `LegacyInterfaceMonitor` | interface_monitor.dfy | `InterfaceMonitor` of interface_monitor.py |
| `FixedInterfaceMonitor` | interface_monitor_fixed.dfy | `InterfaceMonitor` of interface_monitor_fixed.py |

Three details of the code that the model keeps as written:

- `_aggregate`'s p95 (collectors.py:113-117) is the nearest-rank element of the sorted values at index `max(0, min(n-1, ceil(0.95 n) - 1))`. It does not interpolate.
- `MultiFirewallCollector`'s results queue is the unbounded `Queue()` of collectors.py:371. `FanIn` models the bounded put-or-drop queue that tests/test_collectors.py describes, as a separate structure.
- `_collect_session_stats` (interface_monitor_fixed.py:674-710) appends a session reading only when it parsed with `success` set. `parse_session_statistics_your_panos11` returns a failed reading for a reply with an error status (interface_monitor_fixed.py:244-253), for a reply that is not well-formed XML (328-336) and when any other exception is raised (337-345); such a reading is not stored, and the call reports failure. A count that is present but not an integer reads as 0 (262-274), so that reading succeeds and is stored.

## Model

| member | source | states |
|---|---|---|
| Text.Strip | collectors.py:102 | `str.strip()`: the right trim of the left trim, so (with `TrimLeft` and `TrimRight`) exactly the whitespace runs at both ends are cut and none is left at either end |
| Text.TrimLeft | collectors.py:102 | `str.lstrip()`: a suffix of the input, what was cut is whitespace, and it does not start with whitespace |
| Text.TrimRight | collectors.py:102 | `str.rstrip()`: a prefix of the input, what was cut is whitespace, and it does not end with whitespace |
| Text.Lower | config.py:126 | `str.lower()` on ASCII: same length, each character lower-cased |
| Text.LowerUnchanged | config.py:126 | a string without capitals is its own lower-case form |
| Text.Capitalize | interface_monitor.py:376 | `str.capitalize()`: first character upper-cased, the rest lower-cased |
| Text.Split | collectors.py:101 | `str.split(",")` always yields at least one piece |
| Text.ContainsChar | interface_monitor.py:362 | every character of a substring occurs in the string |
| Text.ReplaceAbsent | interface_monitor.py:362 | `str.replace` leaves a string unchanged when the pattern cannot occur in it |
| Text.Replace | interface_monitor.py:362-373 | `str.replace` keeps the length when the replacement is as long as the pattern, and never lengthens when it is shorter |
| Text.ParseInt | config.py:97 | `int()` succeeds only on a non-empty stripped text of digits after at most one sign; a negative value needs a leading '-' |
| Text.ParseFloat | panos-monitor.py:207 | `float()` gives a negative value only for a text containing '-' |
| Text.ParseIntDigits | config.py:97 | `int()` of a string of decimal digits is its decimal value |
| Text.StripUnchanged | collectors.py:102 | stripping a string with no surrounding white space leaves it unchanged |
| Text.StripPadded | collectors.py:102 | stripping removes surrounding blanks |
| Text.DotIndex | collectors.py:103 | finds the first `.` of a token, or reports that there is none |
| Text.DecimalBody | collectors.py:104 | the value of an unsigned decimal text is never negative |
| Text.ParseFloatUnsigned | collectors.py:104 | `float()` of a trimmed, unsigned text is the value of its decimal body |
| Text.DecimalTokenParses | collectors.py:103-104 | every token matching `[0-9]+(\.[0-9]+)?` converts with `float()` to a non-negative value |
| Aggregation.TokenValue | collectors.py:102-104 | a stripped token yields a number iff it matches `[0-9]+(\.[0-9]+)?`, and the number is non-negative |
| Aggregation.TokenNumbers | collectors.py:101-104 | the numbers kept are at most the tokens, all non-negative |
| Aggregation.NumbersFromCsv | collectors.py:98-105 | the loop returns exactly the numbers of the matching tokens, in order, all non-negative |
| Aggregation.TokenNumbersStep | collectors.py:101-104 | one loop step appends the token's value iff it matches, else keeps the list |
| Aggregation.SplitAppend | collectors.py:101 | splitting `a + "," + b` splits `a` and `b` separately |
| Aggregation.SplitNoSeparator | collectors.py:101 | a text without a comma is one piece |
| Aggregation.TokenNumbersAppend | collectors.py:101-104 | the numbers of two token lists concatenate |
| Aggregation.CsvNumbersConcat | collectors.py:98-105 | the numbers of `a + "," + b` are those of `a` followed by those of `b` |
| Aggregation.CsvNumbersToken | collectors.py:98-105 | a single token gives its value iff it matches the pattern after stripping, else nothing |
| Aggregation.CsvNumbersEmpty | collectors.py:101 | empty text gives no numbers |
| Aggregation.Max | collectors.py:113 | `max(values)` is an element and no element exceeds it |
| Aggregation.Min | collectors.py:107-119 | the minimum is an element and no element is below it |
| Aggregation.Insert | collectors.py:116 | inserting into a sorted list keeps it sorted and adds exactly one element |
| Aggregation.InsertAbove | collectors.py:116 | inserting keeps every element above a common lower bound |
| Aggregation.Sorted | collectors.py:116 | `sorted(values)` is sorted and a permutation of the input |
| Aggregation.Aggregate | collectors.py:107-119 | an empty list gives 0.0 in every mode; otherwise the result lies between min and max |
| Aggregation.SumBounds | collectors.py:119 | a sum of values in `[lo, hi]` lies in `[n lo, n hi]` |
| Aggregation.Mean | collectors.py:119 | `sum / len` lies between the smallest and the largest value |
| Aggregation.MeanWithin | collectors.py:119 | the mean of values in `[lo, hi]` is in `[lo, hi]` |
| Aggregation.P95Index | collectors.py:117 | a valid index, and the smallest whose rank `i + 1` covers at least 95% of the `n` values (nearest rank) |
| Aggregation.ModeOf | collectors.py:111-119 | the max mode iff the lower-cased mode (default "mean") is "max", the p95 mode iff it is "p95"; anything else is the mean |
| Aggregation.P95IndexSmall | collectors.py:117 | for 1 to 19 values the p95 index is the last one |
| Aggregation.SortedElement | collectors.py:116 | every element of the sorted list comes from the input |
| Aggregation.SortedLastIsMax | collectors.py:116 | the last element of the sorted list is the maximum |
| Aggregation.P95Bounds | collectors.py:114-118 | the p95 is an element of the input, between min and max |
| Aggregation.P95OfFewIsMax | collectors.py:114-118 | for 1 to 19 values the p95 is the maximum |
| Aggregation.P95IndexOfTwenty | collectors.py:117 | for 20 values the p95 index is 18 |
| Aggregation.ModeNames | collectors.py:111-119 | the mode is read case-insensitively; `None`, `""` and unknown names mean "mean" |
| Aggregation.AggregateNamedModes | collectors.py:107-119 | "mean", "max" and "p95" give the mean, the maximum and the sorted element at the p95 index |
| Aggregation.AggregateByMode | panos-monitor.py:134-145 | for a non-empty list every mode string gives exactly its mode's value; unknown modes give the mean |
| Records.Merge | panos-monitor.py:316 | `dict.update`: updated fields take the new numbers, other fields keep their values |
| Records.Nums | panos-monitor.py:324 | the parser's numbers as record values, key for key |
| Records.MergeKeepsValues | panos-monitor.py:324-325 | a merge never turns a present value back into `None` |
| Records.MergeEmpty | panos-monitor.py:324-325 | merging an empty parse leaves the record unchanged |
| Records.MergeTwice | panos-monitor.py:324-325 | two merges in a row equal one merge of both updates, the later winning |
| Scheduling.SleepTime | panos-monitor.py:1121 | the sleep is never negative; it is zero iff the iteration took the whole interval, otherwise it fills the interval |
| Scheduling.SleepWithinInterval | panos-monitor.py:1120-1123 | with a non-negative elapsed time the sleep never exceeds the interval |
| Scheduling.IterationSpansInterval | collectors.py:465-469 | work plus sleep always lasts at least the interval, with no catch-up |
| Scheduling.PollInterval | panos-monitor.py:1069 | the interval is the requested one when at least 1, and 1 otherwise |
| Parsers.CpuFromTop | collectors.py:121-146 | fields are produced iff the pattern matched and all three captures convert; then they are user, system and idle, and mgmt CPU is user + system |
| Parsers.CpuFromTopExample | panos-monitor.py:202-210 | captures "3.2", "1.5" and "95.0" give mgmt CPU 4.7 |
| Parsers.CpuFromTopBadCapture | panos-monitor.py:206-212 | a capture `float()` rejects gives no fields |
| Parsers.AnyFractional | collectors.py:163 | true iff some positive value has a fractional part |
| Parsers.CoreNewestRule | collectors.py:160-165 | a core's newest value is scaled by 100 iff some positive value is fractional and the maximum is at most 1.0 |
| Parsers.CoreNewest | collectors.py:160-165 | the newest value is kept or multiplied by 100; a non-negative value stays non-negative, and in fraction format the result is at most 100 |
| Parsers.CoreNewestWholePercent | collectors.py:163-165 | whole-number arrays are not scaled |
| Parsers.CoreNewestFractionIsPercent | collectors.py:163-165 | a fractional array's newest value becomes a percentage within `[0, 100]` |
| Parsers.CoreNewestExamples | collectors.py:160-165 | `[0.5, 0.25]` gives 50.0 and `[85, 0.5]` gives 85.0 |
| Parsers.CoreValue | collectors.py:157-160 | a core's value, when it has one, is non-negative |
| Parsers.PerCoreLatest | collectors.py:156-167 | at most one value per core entry, all non-negative |
| Parsers.PerCoreLatestAllReport | collectors.py:156-167 | when every core reports, each contributes its own newest value, in order |
| Parsers.PerCoreLatestAt | collectors.py:156-167 | when every core reports, the value at a core's position is that core's newest value |
| Parsers.PerCoreLatestLast | collectors.py:156-167 | a reporting core appends its value to the list |
| Parsers.DpCpuFromRm | collectors.py:148-185 | a malformed reply gives no fields; otherwise all four fields are present and `data_plane_cpu` equals the mean; without cores all are 0.0, and otherwise max, mean and p95 are `max`, the mean and the nearest-rank p95 of the per-core values |
| Parsers.CoreSummary | collectors.py:170-176 | `data_plane_cpu_max`, `_mean` and `_p95` are the `_aggregate` values "max", "mean" and "p95" of the cores; p95 is the sorted cores at index `max(0, min(n-1, ceil(0.95 n) - 1))`, an element of the cores; `data_plane_cpu` is the mean; mean and p95 are at most max |
| Parsers.DpFields | collectors.py:170-181 | the four data-plane fields carry the given values, `data_plane_cpu` the mean |
| Parsers.DpCpuNoCores | collectors.py:177-181 | with no cores all four fields are 0.0 |
| Parsers.DpCpuLive | panos-monitor.py:214-246 | a malformed reply gives no fields; otherwise `data_plane_cpu` is exactly the `_aggregate` of the per-core values in the `DP_AGGREGATION` mode, 0.0 without cores |
| Parsers.PbufLatest | panos-monitor.py:255-260 | at most one non-negative value per entry |
| Parsers.PbufFromRm | panos-monitor.py:248-264 | a malformed reply gives no fields; otherwise the field is the mean of the newest values of the "packet buffer (maximum)" entries, 0.0 if none |
| Parsers.PbufLatestAppend | panos-monitor.py:255-260 | entries contribute independently, in order |
| Parsers.PbufIgnoresOtherEntries | panos-monitor.py:256-257 | an entry whose lower-cased name lacks "packet buffer (maximum)" contributes nothing |
| Parsers.PbufTakesNewest | panos-monitor.py:257-260 | a matching entry with numbers contributes its first (newest) number |
| Parsers.ThroughputFromSessionInfo | panos-monitor.py:266-284 | Mbps = kbps / 1000 and pps as read; a missing or non-numeric value is omitted |
| Parsers.ThroughputExample | collectors.py:207-229 | kbps "1500" and pps "250" give 1.5 Mbps and 250 pps |
| Parsers.ThroughputOfBoth | collectors.py:207-229 | a reply whose two fields convert reports kbps / 1000 as Mbps and the pps as given, nothing else |
| Parsers.ThroughputOfPps | collectors.py:207-229 | a reply whose kbps does not convert reports only the pps |
| Parsers.ThroughputSkipsBadKbps | collectors.py:215-219 | a non-numeric kbps is skipped while pps is still read |
| Parsers.FloatOf3p2 | panos-monitor.py:207 | `float("3.2")` is 3.2 |
| Parsers.FloatOf1p5 | panos-monitor.py:207 | `float("1.5")` is 1.5 |
| Parsers.FloatOf95p0 | panos-monitor.py:207 | `float("95.0")` is 95.0 |
| Parsers.FloatOf1500 | panos-monitor.py:274 | `float("1500")` is 1500.0 |
| Parsers.FloatOf250 | panos-monitor.py:279 | `float("250")` is 250.0 |
| Parsers.FloatOf1p2p3 | panos-monitor.py:207 | `float("1.2.3")` fails |
| Parsers.FloatOfNa | panos-monitor.py:274-276 | `float("n/a")` fails |
| Parsers.BodyOfTenths | panos-monitor.py:207 | the decimal bodies "3.2" and "1.5" have those values |
| Parsers.BodyOfNinetyFive | panos-monitor.py:207 | the decimal body "95.0" is 95.0 |
| Parsers.BodyOfWholes | panos-monitor.py:274-279 | the decimal bodies "1500" and "250" have those values |
| Parsers.BodyOfNonNumbers | panos-monitor.py:274-276 | "1.2.3" and "n/a" are not decimal bodies |
| Collectors.GroupKeys | collectors.py:302-342 | each metric group can only set its own fields |
| Collectors.MergeGroupsKeys | collectors.py:308-338 | the merged record has exactly the fields of the four groups |
| Collectors.MergeGroupsCpu | collectors.py:307-308 | the CPU group's values survive the later merges |
| Collectors.MergeGroupsDp | collectors.py:321-322 | the data-plane values survive the later merges |
| Collectors.MergeGroupsPbuf | collectors.py:325-326 | the packet-buffer value survives the later merges |
| Collectors.CollectorRecord | collectors.py:298-346 | every record carries the poll's timestamp and the firewall's name |
| Collectors.StampedGroups | collectors.py:298-346 | the stamped record has the group fields plus timestamp and name, each with its group's value |
| Collectors.CollectorRecordValues | collectors.py:298-346 | a collected record holds exactly the fields the groups produced, with their values |
| Collectors.FailedCpuOmitted | collectors.py:303-310 | when the resources request returns nothing, no CPU field is present while the other groups still merge |
| Collectors.CpuFieldsOutside | collectors.py:314-346 | no later group can set a CPU field |
| Collectors.MonitorFieldsPresent | collectors.py:315-326 | a parsed resource-monitor reply always adds the data-plane and packet-buffer fields |
| Collectors.FirewallCollector.constructor | collectors.py:256-265 | starts unauthenticated, with no poll time and a poll count of 0 |
| Collectors.FirewallCollector.Authenticate | collectors.py:267-275 | returns the key-generation outcome and sets `authenticated` on success only |
| Collectors.FirewallCollector.CollectMetrics | collectors.py:288-359 | unauthenticated with a failed login: "Authentication failed" and nothing else changes; otherwise success with the merged record, the poll count up by exactly 1 and the poll time set |
| Collectors.StampedAll | collectors.py:344-346 | stamping keeps every group's value and adds exactly the timestamp and firewall name |
| Collectors.StoredAppend | collectors.py:485-493 | the processor treats the results one by one, in order |
| Collectors.StoredOnlySuccesses | collectors.py:485-493 | everything stored is the name and metrics of a successful result with metrics |
| Collectors.StoredCount | collectors.py:485-493 | the number of writes equals the number of successful results with metrics |
| Collectors.Stored | collectors.py:485-493 | at most one write per result, and every written record holds at least one field |
| Collectors.QualifyingStep | collectors.py:485-487 | one more result adds its index to the stored ones exactly when it is a success with metrics |
| Collectors.StopEvent.constructor | collectors.py:378 | a new stop event is not set |
| Collectors.Worker.Start | collectors.py:541-548 | a started worker runs for its firewall with its stop event |
| Collectors.MultiFirewallCollector.constructor | collectors.py:364-380 | one fresh collector and unset stop event per enabled firewall, each registered under its host; empty queue, no threads |
| Collectors.BuildCollectors | collectors.py:375-380 | exactly the enabled firewalls get a fresh collector with their own config, an unset event and a registration under their host |
| Collectors.MultiFirewallCollector.WorkerIteration | collectors.py:444-469 | one worker pass enqueues the collector's result: on success the stamped record and the poll time, otherwise "Authentication failed"; the collector is authenticated iff the pass succeeded, counts the poll and takes the poll time only then; the sleep is the remainder of the firewall's interval |
| Collectors.MultiFirewallCollector.ProcessNext | collectors.py:477-495 | takes the oldest queued result and stores it iff it succeeded with metrics |
| Collectors.MultiFirewallCollector.ProcessAll | collectors.py:473-500 | draining the queue stores exactly the successful results, in queue order |
| Collectors.MultiFirewallCollector.Status | collectors.py:502-517 | one entry per collector, reporting its authentication, poll count, poll time, thread liveness and configuration |
| Collectors.MultiFirewallCollector.RestartCollector | collectors.py:523-551 | false for an unknown name with nothing changed; otherwise the old event is set, and a fresh event and a started worker replace that name's entries only |
| Collectors.StopEvent.Set | collectors.py:530 | the event is set afterwards |
| Collectors.MultiFirewallCollector.StartWorker | collectors.py:538-548 | a fresh unset event and a started worker replace that name's entries, nothing else changes |
| FanIn.Offer | tests/test_collectors.py:23-33 | a put succeeds iff the queue is not full; an accepted item is appended, a refused one changes nothing, and the size never exceeds the capacity |
| FanIn.OfferAll | tests/test_collectors.py:206-223 | accepted plus dropped equals the attempts, and earlier items stay in place |
| FanIn.OfferAllStep | tests/test_collectors.py:214-219 | a run of puts is the puts one after another |
| FanIn.OfferAllAcceptsPrefix | tests/test_collectors.py:65-79 | the queue takes the first offers until full and drops all later ones, in order |
| FanIn.OfferAllBounded | tests/test_collectors.py:65-79 | an empty queue of positive capacity ends with min(attempts, capacity) items |
| FanIn.FullQueueDropsAll | tests/test_collectors.py:191-204 | a full queue refuses every further put and counts each as a drop |
| FanIn.HundredOfTwoHundred | tests/test_collectors.py:65-79 | capacity 100 and 200 puts: 100 accepted, 100 dropped |
| FanIn.TwoOfFive | tests/test_collectors.py:206-223 | capacity 2 and 5 puts: the first 2 processed, 3 dropped |
| FanIn.FiftyInThousand | tests/test_collectors.py:54-63 | capacity 1000 and 50 puts: the queue holds the 50 items |
| FanIn.LoggedCount | tests/test_collectors.py:140-152 | `n` drops log `ceil(n / 10)` warnings |
| FanIn.TwentyFiveDropsThreeWarnings | tests/test_collectors.py:140-152 | 25 drops log 3 warnings and 15 drops log 2 |
| FanIn.BoundedQueue.constructor | tests/test_collectors.py:25 | an empty queue with the given capacity and zero counters |
| FanIn.BoundedQueue.Put | tests/test_collectors.py:128-152 | accepted iff not full; a refusal adds one drop and logs a warning when the drop count ends in 1 |
| FanIn.BoundedQueue.PutAll | tests/test_collectors.py:206-223 | the producer loop offers every item; accepted + dropped = attempts and the queue is that of the offers in turn |
| LiveMonitor.InitialRecord | panos-monitor.py:308-310 | every CPU, throughput and packet-buffer field starts as `None`, plus the timestamp |
| LiveMonitor.TopGroup | panos-monitor.py:313-316 | the `top` group is empty or all four CPU fields with mgmt = user + system |
| LiveMonitor.DpGroup | panos-monitor.py:321-324 | the data-plane group sets at most `data_plane_cpu` |
| LiveMonitor.PbufGroup | panos-monitor.py:325 | the packet-buffer group sets at most `pbuf_util_percent` |
| LiveMonitor.ThroughputGroup | panos-monitor.py:330-333 | the session group sets at most the throughput fields |
| LiveMonitor.MergeWithin | panos-monitor.py:324-333 | merging only known fields adds no field |
| LiveMonitor.AssembleFields | panos-monitor.py:307-335 | a record has exactly the live fields and the timestamp |
| LiveMonitor.PollRecord | panos-monitor.py:307-335 | every polled record has exactly the live fields and the timestamp, stamped with the poll time |
| LiveMonitor.AssembleMgmtCpu | panos-monitor.py:308-335 | mgmt CPU is either `None` with user and system, or their sum |
| LiveMonitor.TopMergeConsistent | panos-monitor.py:307-316 | the top group, empty or consistent, leaves mgmt CPU `None` or user + system |
| LiveMonitor.MergeKeepsConsistent | panos-monitor.py:320-333 | a group without CPU fields keeps mgmt CPU consistent |
| LiveMonitor.PollRecordMgmtCpu | panos-monitor.py:307-335 | in every polled record mgmt CPU is `None` or user + system |
| LiveMonitor.CpuFieldsKept | panos-monitor.py:324-333 | later groups never touch the CPU fields |
| LiveMonitor.PollWithoutReplies | panos-monitor.py:313-335 | when every request fails the record is all `None` with a timestamp |
| LiveMonitor.PollFillsDataPlane | panos-monitor.py:321-325 | a parsed resource-monitor reply sets `data_plane_cpu` to the per-core loads aggregated in the `DP_AGGREGATION` mode (default "mean") and `pbuf_util_percent` to the mean of the latest qualifying buffer readings, 0.0 when there are none |
| LiveMonitor.Latest | panos-monitor.py:337-339 | keeping the last `n` records keeps `min(len, n)` of them |
| LiveMonitor.LatestAppend | panos-monitor.py:337-339 | after an append the window ends with the new record and holds at most `n` |
| LiveMonitor.LatestOfLatest | panos-monitor.py:337-339 | trimming after every append equals trimming once |
| LiveMonitor.StatsCollector.constructor | panos-monitor.py:287-294 | no rows yet and `max_points` = 1000 |
| LiveMonitor.StatsCollector.PollOnce | panos-monitor.py:307-345 | returns the merged record, appends it and keeps the rows equal to the last `max_points` polls |
| LiveMonitor.BuildRecord | panos-monitor.py:307-335 | the record-building steps produce the merged record |
| LiveMonitor.PollRecords | panos-monitor.py:1093-1097 | one record per loop pass |
| LiveMonitor.PollRecordsStep | panos-monitor.py:1093-1097 | each pass appends its own record |
| LiveMonitor.MainLoopIteration | panos-monitor.py:1094-1123 | one pass polls once and sleeps the remainder of the interval |
| LiveMonitor.MonitorLoop | panos-monitor.py:1069-1123 | the loop polls once per pass, in order, and sleeps after pass k exactly `max(0, interval - elapsed_k)`; that sleep is never negative, and it stays within the interval exactly when the wall clock did not go back during pass k (otherwise it is longer) |
| Config.NewFirewall | config.py:20-30 | a firewall with the given identity takes the defaults: TLS verified, enabled, 60 s, "mean" |
| Config.EnvBool | config.py:121-126 | an unset key gives the default |
| Config.EnvBoolIgnoresDefault | config.py:121-126 | a set key's value alone decides |
| Config.EnvBoolPlain | config.py:121-126 | a trimmed lower-case value is true iff it is "1", "true", "yes" or "y" |
| Config.EnvBoolSpacedYes | config.py:126 | " Yes " is true |
| Config.EnvBoolEmpty | config.py:126 | an empty value is false even with a true default |
| Config.EnvGet | config.py:93-101 | `os.getenv` with a default |
| Config.EnvInt | config.py:97-99 | an unset key gives the default, a set one `int()` of its value |
| Config.EnvIntSetting | config.py:97-99 | `int(os.getenv(key, str(current)))`: the variable's `int()` when set; else the setting itself when it is an integer, and a failure when it is a boolean |
| Config.EnvIntSettingOfInt | config.py:97-99 | for a setting holding an integer this is `EnvInt` with that default |
| Config.FromEnv | config.py:90-119 | defined iff the port, retention and (with credentials) polling conversions succeed; the table is unchanged without credentials and otherwise gains "legacy_firewall" from the variables; it keeps the table consistent and well-typed settings well-typed |
| Config.FromEnvUnset | config.py:90-119 | an empty environment leaves well-typed settings and the table as they are |
| Config.DefaultTable | config.py:130-138 | an empty table becomes exactly the disabled example firewall; a non-empty one is unchanged; the result is never empty and stays consistent |
| Config.Without | config.py:170 | deleting a key shortens the key order |
| Config.WithoutMembers | config.py:170 | after deletion exactly the other keys remain |
| Config.WithoutDistinct | config.py:170 | deletion keeps the keys distinct |
| Config.Table.Put | config.py:163 | `firewalls[n] = c`: the entry is replaced, a new key goes last, an existing key keeps its place |
| Config.Table.Delete | config.py:170 | `del firewalls[n]` removes the entry and its key |
| Config.PutValid | config.py:163 | assignment keeps the table consistent |
| Config.DeleteValid | config.py:170 | deletion keeps the table consistent |
| Config.GetGlobal | config.py:76 | exactly the nine `GlobalConfig` attributes exist |
| Config.SetGlobalGet | config.py:75-77 | setting a known key changes that key only; an unknown key changes nothing |
| Config.SetGlobal | config.py:75-77 | an unknown key changes nothing; a known key reads back as the value, whatever its type |
| Config.SetGlobals | config.py:75-77 | the section's last key, when known, reads back as its value |
| Config.SetGlobalsLastWins | config.py:75-77 | a known key takes the value of its last occurrence in the section |
| Config.SetGlobalOther | config.py:75-77 | setting a known key leaves every other key's value as it was |
| Config.SetGlobalsIgnoresUnknown | config.py:73-77 | YAML globals with no known key leave the globals unchanged |
| Config.SetGlobalsUntouched | config.py:73-77 | a key the YAML does not mention keeps its value |
| Config.BuildFirewall | config.py:82 | an entry builds a firewall iff it has host, username and password and no unknown key; missing options take the dataclass defaults |
| Config.LoadEntriesValid | config.py:79-82 | loading firewalls keeps the table consistent |
| Config.LoadEntriesKeeps | config.py:79-82 | loading never removes a firewall |
| Config.LoadEntriesAccepts | config.py:79-88 | loading succeeds iff every entry builds, and then every entry is present |
| Config.LoadEntries | config.py:80-82 | every firewall that loading adds is named by some entry of the section |
| Config.GlobalErrors | config.py:193-197 | None (TypeError) iff `web_port` is a string; otherwise at most two errors, none iff the port is in 1..65535 and the output type is "CSV", "XLSX" or "TXT" |
| Config.PortValue | config.py:193 | the port compares as a number exactly when it is not a string |
| Config.StringPortFromYaml | config.py:75-197 | a YAML `web_port: "8080"` is stored as the string, validation then raises, while the environment fallback still reads it as 8080 |
| Config.FirewallErrors | config.py:200-211 | at most four errors per firewall, none iff it is valid |
| Config.FirewallErrorsMessages | config.py:201-211 | each message appears iff its rule is broken |
| Config.TableErrorsEmpty | config.py:199-211 | no firewall errors iff every firewall is valid |
| Config.TableErrorsBound | config.py:199-211 | at most four errors per firewall |
| Config.TableErrors | config.py:199-211 | every firewall error begins with "Firewall " |
| Config.Message | config.py:199-211 | every message about a firewall begins with "Firewall " |
| Config.ValidationErrors | config.py:188-213 | None (TypeError) iff `web_port` is a string; otherwise the global errors come first, every later error is a firewall error, and there are at most 2 + 4 per firewall |
| Config.ValidationEmptyIff | config.py:188-213 | the error list is present and empty iff the port, the output type and every firewall are valid |
| Config.ValidationBound | config.py:188-213 | validation raises iff `web_port` is a string; otherwise at most 2 + 4 per firewall errors |
| Config.ConfigManager.constructor | config.py:48-51 | default globals and no firewalls |
| Config.ConfigManager.Load | config.py:59-88 | a missing file: the environment overrides then the example firewall if the table is empty; an unreadable file: the environment overrides; a document: the YAML globals, then the entries, and if an entry is rejected the environment overrides on top; it fails exactly where an `int()` raises |
| Config.ConfigManager.ApplyYamlGlobals | config.py:73-77 | globals are the YAML overrides applied in order, stored whatever their type; firewalls unchanged |
| Config.ConfigManager.LoadFirewalls | config.py:79-82 | the table is that of loading the entries in order |
| Config.ConfigManager.LoadFromEnv | config.py:90-119 | succeeds iff the integer variables convert (`FromEnv`); then each text and flag global comes from its variable or keeps its value, the integer ones are `int()` of the variable or of the old value, and "legacy_firewall" is set iff host, user and password are all non-empty |
| Config.ConfigManager.CreateDefault | config.py:128-141 | the table becomes `DefaultTable`: an empty table gets the disabled "example_fw", a non-empty one is left alone |
| Config.ConfigManager.AddFirewall | config.py:158-165 | the entry is stored under its name, others unchanged, a replaced name keeps its place and a new one goes last; the result is true |
| Config.ConfigManager.RemoveFirewall | config.py:167-174 | true iff the name was present; then the table is `Delete(name)` of the old one (the name leaves both the entries and the order), otherwise the table is unchanged; the globals are unchanged |
| Config.ConfigManager.EnabledFirewalls | config.py:176-178 | exactly the enabled firewalls, with their configurations |
| Config.ConfigManager.GetFirewall | config.py:180-182 | the firewall's configuration iff the name is present |
| Config.ConfigManager.ListFirewalls | config.py:184-186 | every name exactly once |
| Config.ConfigManager.ValidateConfig | config.py:188-213 | the loop returns the error list of `ValidationErrors`: global errors first, then each firewall's in table order; None where the port comparison raises |
| Config.TableErrorsStep | config.py:199-211 | checking one more firewall appends exactly that firewall's errors |
| InterfaceRates.Delta32 | interface_monitor.py:200-214 | a negative delta gets 2^32 added; for 32-bit counters the result is the difference modulo 2^32 |
| InterfaceRates.DeltaHeuristic | interface_monitor_fixed.py:365-388 | a negative delta gets 2^64 added when below -2^31, else 2^32; for 64-bit counters it is never negative |
| InterfaceRates.Delta | interface_monitor_fixed.py:360-388 | whichever rule applies, the delta is at least the plain difference and non-negative for in-range counters |
| InterfaceRates.Delta32WrapExample | interface_monitor.py:207-214 | wrapping from 4294967290 to 5 gives 11 |
| InterfaceRates.DeltaHeuristicWrapExample | interface_monitor_fixed.py:366-370 | the same wrap gives 2^64 - 4294967285 in the fixed file, which differs from the 32-bit rule |
| InterfaceRates.SmallWrapAgrees | interface_monitor_fixed.py:366-370 | the two rules agree on a wrap of at most 2^31 |
| InterfaceRates.NoWrapAgrees | interface_monitor_fixed.py:360-363 | without a wrap both rules give the plain difference |
| InterfaceRates.Calculate | interface_monitor.py:189-236 | no rate iff the names differ or no time passed; otherwise the rate is for the current interface over the elapsed time, with total = rx + tx Mbps |
| InterfaceRates.CalculateRecoversDeltas | interface_monitor_fixed.py:390-413 | bits/s times the interval is 8 times the byte delta, packets/s times the interval is the packet delta, and Mbps = bits/s / 10^6 |
| InterfaceRates.CalculateNonNegative | interface_monitor_fixed.py:365-413 | rates from in-range counters are never negative |
| InterfaceRates.CalculateLegacy | interface_monitor.py:189-236 | no rate iff the names differ or no time passed; each byte and packet rate times the interval is the 32-bit-wrapped delta (8 bits per byte); for 32-bit counters no rate is negative |
| InterfaceRates.CalculateFixed | interface_monitor_fixed.py:347-413 | the same with the deltas of the 2^64 heuristic; for 64-bit counters no rate is negative |
| InterfaceRates.CalculateFacts | interface_monitor.py:189-236 | under either delta rule, each rate times the interval is the delta, and deltas within the counter width give non-negative rates |
| InterfaceRates.CalculateExample | interface_monitor.py:216-236 | 1000 bytes and 10 packets in one second give 8000 bit/s, 0.008 Mbps and 10 packets/s |
| InterfaceRates.NoRateWithoutElapsedTime | interface_monitor.py:196-198 | no rate when the current sample is not later |
| InterfacePolicy.Names | interface_monitor.py:574 | the configurations' names, in order |
| InterfacePolicy.ConfigsFor | interface_monitor.py:562-584 | the detailed configurations first, then one enabled configuration for each listed name not yet configured |
| InterfacePolicy.CreateInterfaceConfigs | interface_monitor_fixed.py:777-798 | the loop builds exactly those configurations |
| InterfacePolicy.ByName | interface_monitor.py:251 | each name maps to a configuration of that name, the last one for repeated names |
| InterfacePolicy.Excluded | interface_monitor.py:308-310 | true iff some pattern is a case-insensitive substring of the name |
| InterfacePolicy.ShouldMonitor | interface_monitor_fixed.py:504-523 | exclusion first, then the firewall's own rule, then the configured enabled flag, then auto-discovery |
| InterfacePolicy.ExclusionBeatsConfiguration | interface_monitor.py:305-318 | an excluded name is not monitored even when configured and enabled |
| InterfacePolicy.ExcludedByDefaults | interface_monitor.py:259 | the default patterns exclude exactly names containing mgmt, loopback or tunnel in any case |
| InterfacePolicy.NotExcludedByDefaults | interface_monitor.py:259 | a name without m, l or u is not excluded by the defaults |
| InterfacePolicy.PlainNameNotExcluded | interface_monitor.py:259 | the same for lower-case names |
| InterfacePolicy.DefaultNames | interface_monitor.py:273-303 | the defaults are ethernet1/1 to 1/3, ae1 and ae2 |
| InterfacePolicy.DefaultAggregate | interface_monitor.py:291-302 | ae1 is configured by its default entry |
| InterfacePolicy.ByNameUnique | interface_monitor.py:251 | a configuration with a unique name is found by it |
| InterfacePolicy.DefaultPort | interface_monitor.py:276-280 | ethernet1/1 is configured by its default entry |
| InterfacePolicy.DefaultUnconfigured | interface_monitor.py:273-303 | ethernet1/7 has no default configuration |
| InterfacePolicy.DefaultPortMonitored | interface_monitor.py:254-259 | without a firewall configuration ethernet1/1 is monitored |
| InterfacePolicy.DefaultAggregateNotMonitored | interface_monitor.py:291-302 | ae1 is configured disabled and so not monitored |
| InterfacePolicy.UnconfiguredPortDiscovered | interface_monitor.py:320-322 | an unconfigured, non-excluded port is monitored through auto-discovery |
| InterfacePolicy.PortNameLowerCase | interface_monitor.py:351 | "ethernet1/N" is already lower-case |
| InterfacePolicy.GenericEthernetBranch | interface_monitor.py:354-363 | an ethernet name past 1/1, 1/2 and 1/3 takes the generic branch |
| InterfacePolicy.StripEthernet | interface_monitor.py:362 | removing "ethernet" from "ethernet1/N" leaves "1/N" |
| InterfacePolicy.ReplacePortPrefix | interface_monitor.py:362 | replacing "1/" in "1/N" gives the replacement followed by N |
| InterfacePolicy.EthernetPortNames | interface_monitor.py:360-363 | "ethernet1/N" is "Port Port N" as written and "Port N" as intended |
| InterfacePolicy.EthernetPortFour | interface_monitor.py:360-363 | "ethernet1/4" is "Port Port 4" as written and "Port 4" as intended |
| InterfacePolicy.DisplayNameWith | interface_monitor.py:349-376 | the display name is empty iff the interface name is; a generic ethernet port's name begins with "Port " |
| InterfacePolicy.DisplayNameAsWritten | interface_monitor.py:349-376 | agrees with the corrected `DisplayName` on every name but the generic ethernet ports, whose names begin with "Port " |
| InterfacePolicy.DisplayName | interface_monitor.py:349-376 | the corrected name: empty iff the interface name is; a generic ethernet port's name begins with "Port " |
| InterfacePolicy.LongPortNamedAsFirst | interface_monitor.py:354-355 | the prefix tests run in order, so "ethernet1/12" is "WAN/Internet" |
| InterfacePolicy.CapitalisedPortNamed | interface_monitor.py:351-357 | the name is lower-cased first, so "Ethernet1/2" is "LAN/Internal" |
| InterfacePolicy.AggregateNamed | interface_monitor.py:364-367 | "ae3" is "Aggregate 3" |
| InterfacePolicy.VlanNamed | interface_monitor.py:368-371 | "vlan10" is "VLAN 10" |
| InterfacePolicy.OtherNameCapitalised | interface_monitor.py:374-376 | a name matching no prefix is capitalised: "LO1" is "Lo1" |
| InterfaceParsers.SampleOf | interface_monitor.py:79-115 | an entry gives a sample iff it has a name not starting with mgmt, loopback or tunnel, counters, and six convertible counters; the sample carries them |
| InterfaceParsers.SampleOfSome | interface_monitor.py:79-115 | a sample an entry yields is a success of the entry's non-skipped name, taken now |
| InterfaceParsers.EntrySamples | interface_monitor.py:79-115 | one outcome per entry, in order |
| InterfaceParsers.ParseInterfaceStatistics | interface_monitor.py:67-125 | the loop builds the table of the entries' samples |
| InterfaceParsers.TableKeys | interface_monitor.py:105 | the table's names are exactly those of the samples |
| InterfaceParsers.TableValues | interface_monitor.py:105 | each name maps to one of its samples |
| InterfaceParsers.TableLastWins | interface_monitor.py:105 | a repeated name keeps its last sample |
| InterfaceParsers.InterfaceStatisticsComplete | interface_monitor.py:79-115 | every entry that yields a sample is in the table |
| InterfaceParsers.InterfaceStatisticsSamples | interface_monitor.py:79-115 | every table entry is a successful sample of that name, taken now, from some entry |
| InterfaceParsers.InterfaceStatistics | interface_monitor.py:67-125 | an unparsable reply gives no samples; every sample is filed under its own name, stamped now and successful |
| InterfaceParsers.MissingCountersAreZero | interface_monitor.py:98-103 | absent counters read as 0 |
| InterfaceParsers.LegacySkipIsCaseSensitive | interface_monitor.py:89 | the skip test is case-sensitive: "MGMT" is kept, "mgmt0" skipped |
| InterfaceParsers.ProtoCount | interface_monitor.py:148-155 | a protocol's count is at most the number of entries |
| InterfaceParsers.ProtoCountsBounded | interface_monitor.py:148-155 | tcp + udp + icmp counts are at most the number of entries |
| InterfaceParsers.ProtocolCaseIgnored | interface_monitor.py:149-151 | protocols are compared lower-cased |
| InterfaceParsers.SessionRateDefaults | interface_monitor.py:157-163 | a missing or empty rate is 0.0 |
| InterfaceParsers.SessionStatistics | interface_monitor.py:127-187 | malformed XML gives a failed reading stamped `now`; a missing count gives none; a count that is not an integer gives a failed reading; otherwise a success with `int()` of both counts, the tcp/udp/icmp entry counts (together at most the entries) and the session rate |
| InterfaceParsers.ParseSessionStatistics | interface_monitor.py:127-187 | the counting loop yields exactly `SessionStatistics`, so every clause above holds of its result |
| InterfaceParsers.DiscoveredNamesMembers | interface_monitor_fixed.py:86-92 | exactly the stripped texts of the kept names |
| InterfaceParsers.DiscoverInterfaces | interface_monitor_fixed.py:66-99 | the loop returns that set |
| InterfaceParsers.DiscoveryExcludes | interface_monitor_fixed.py:86-92 | every discovered name comes from the reply and does not start, in any case, with mgmt, loopback or tunnel |
| InterfaceParsers.Discovery | interface_monitor_fixed.py:66-99 | a blank or unparsable reply discovers nothing; no discovered name is of an excluded kind |
| InterfaceParsers.DiscoveredNames | interface_monitor_fixed.py:86-95 | no kept name starts, lower-cased, with "mgmt", "loopback" or "tunnel" |
| InterfaceParsers.DiscoveryIgnoresCase | interface_monitor_fixed.py:91 | discovery drops "MGMT", which the older parser keeps |
| InterfaceSeries.Keep | interface_monitor.py:459-462 | a list comprehension keeps exactly the elements that pass, never more |
| InterfaceSeries.KeepAppend | interface_monitor.py:459-462 | filtering distributes over concatenation |
| InterfaceSeries.KeepAll | interface_monitor.py:459-462 | filtering keeps a list whose elements all pass |
| InterfaceSeries.NextSamples | interface_monitor.py:438-462 | after an append and the 24-hour prune, exactly the recent old samples and the new one remain, the new one last |
| InterfaceSeries.NewRate | interface_monitor.py:443-446 | a rate needs a previous sample and is computed from the last one |
| InterfaceSeries.NextMetrics | interface_monitor.py:448-470 | the rate list is absent iff it was and no rate was computed |
| InterfaceSeries.FreshSampleKeepsRates | interface_monitor.py:448-470 | with a recent sample the rate list keeps every rate, plus the new one |
| InterfaceSeries.StaleSampleClearsRates | interface_monitor.py:464-470 | when no recent sample remains the rate list is emptied |
| InterfaceSeries.StoreSamples | interface_monitor.py:432-462 | each stored interface's list is updated and every other list kept |
| InterfaceSeries.RateUpdates | interface_monitor.py:442-470 | each stored interface's new rate list |
| InterfaceSeries.ApplyRates | interface_monitor.py:448-470 | updated interfaces get their new list; others keep theirs |
| InterfaceSeries.StoreOne | interface_monitor.py:438-470 | one interface's update of samples and rates |
| InterfaceSeries.StoreSamplesStep | interface_monitor.py:432-462 | interfaces are stored independently of each other |
| InterfaceSeries.StoreSamplesOverlay | interface_monitor.py:432-462 | the stored table is the new lists of the stored interfaces laid over the old table |
| InterfaceSeries.ApplyRatesStep | interface_monitor.py:448-470 | one more rate update touches one interface only |
| InterfaceSeries.StoreRatesStep | interface_monitor.py:442-470 | the same for the rate table |
| InterfaceSeries.StoreAllSamplesStep | interface_monitor.py:432-435 | a name that is not kept is skipped |
| InterfaceSeries.StoreAllRatesStep | interface_monitor.py:432-435 | the same for rates |
| InterfaceSeries.SamplesBeforeStore | interface_monitor.py:432-462 | storing other interfaces leaves one's samples alone |
| InterfaceSeries.RatesBeforeStore | interface_monitor.py:442-470 | storing other interfaces leaves one's rates alone |
| InterfaceSeries.StoreAll | interface_monitor.py:431-470 | the loop over the reply stores exactly the kept interfaces' samples and rates |
| InterfaceSeries.StoreSamplesInvariant | interface_monitor_fixed.py:651-656 | samples stay filed under their own interface, and a stored interface keeps only samples of the last 24 hours |
| InterfaceSeries.StoreRatesGrow | interface_monitor_fixed.py:636-664 | a recent sample keeps the old rates and appends the new one when it exists |
| InterfaceSeries.StoreRates | interface_monitor.py:442-467 | each stored interface's rate list becomes `NextMetrics` of its previous samples and rates; every other interface's list is unchanged |
| InterfaceSeries.FreshSampleExtends | interface_monitor.py:442-467 | a sample newer than 24 hours always adds a rate to an existing list, keeping the earlier rates as a prefix |
| InterfaceSeries.RecentSessions | interface_monitor.py:488-492 | exactly the readings newer than 24 hours are kept, never more than there were |
| InterfaceSeries.SessionWindow | interface_monitor_fixed.py:742-759 | exactly the stored readings inside the bounds; all of them without bounds |
| InterfaceSeries.SessionsBetween | interface_monitor_fixed.py:742-759 | the filtering loop returns that window |
| InterfaceSeries.SessionWindowAppend | interface_monitor_fixed.py:748-757 | the window keeps stored order |
| LegacyInterfaceMonitor.AutoConfig | interface_monitor.py:338-345 | a discovered interface gets an enabled configuration named after it, with the as-written display name and the description "Auto-discovered interface " + name |
| LegacyInterfaceMonitor.AutoConfigs | interface_monitor.py:338-345 | exactly one such configuration per name, each `AutoConfig` of its key |
| LegacyInterfaceMonitor.ShouldMonitorLocal | interface_monitor.py:316-318 | the decision for one name reads only that name's configuration |
| LegacyInterfaceMonitor.DiscoverStep | interface_monitor.py:331-345 | one loop step takes up a new monitored name and configures it only when unconfigured |
| LegacyInterfaceMonitor.AutoConfigPortName | interface_monitor.py:339 | as written, a discovered "ethernet1/4" is named "Port Port 4", which differs from the corrected "Port 4" |
| LegacyInterfaceMonitor.InterfaceMonitor.constructor | interface_monitor.py:241-271 | settings from the firewall configuration or the defaults, nothing stored, 30 s interval |
| LegacyInterfaceMonitor.InterfaceMonitor.AutoDiscoverInterfaces | interface_monitor.py:326-347 | nothing when auto-discovery is off; otherwise exactly the new monitored names are discovered, and those without a configuration get `AutoConfig`, never overwriting one |
| LegacyInterfaceMonitor.InterfaceMonitor.CollectInterfaceStats | interface_monitor.py:421-473 | samples are stored for configured names whether enabled or not, with the 32-bit rule; an empty reply changes nothing |
| LegacyInterfaceMonitor.InterfaceMonitor.CollectSessionStats | interface_monitor.py:475-498 | any reading, failed ones included, is appended and the list pruned to 24 hours |
| FixedInterfaceMonitor.MonitoredNames | interface_monitor_fixed.py:627-629 | exactly the names of the reply the policy monitors |
| FixedInterfaceMonitor.AcceptedSession | interface_monitor_fixed.py:680-708 | a reading is stored iff the reply is non-empty, has no error status and parses to a success |
| FixedInterfaceMonitor.AfterAuth | interface_monitor_fixed.py:567-577 | a passed check resets the failures, a failed one adds one, no check keeps them |
| FixedInterfaceMonitor.RoundFailures | interface_monitor_fixed.py:565-597 | a successful collection resets the counter, a failed one adds one; unauthenticated rounds only count the check |
| FixedInterfaceMonitor.FailedRounds | interface_monitor_fixed.py:565-597 | `k` failed checks from `f` failures leave exactly `f + k` |
| FixedInterfaceMonitor.RoundFailuresBounded | interface_monitor_fixed.py:569-597 | starting below 5, a round never passes 5 |
| FixedInterfaceMonitor.FiveFailedChecksStop | interface_monitor_fixed.py:558-573 | five failures in a row reach the limit, four do not |
| FixedInterfaceMonitor.SuccessfulRoundResets | interface_monitor_fixed.py:576-585 | a passed check and a successful collection reset the counter |
| FixedInterfaceMonitor.StoredMonitored | interface_monitor_fixed.py:627-656 | storing only monitored names keeps samples where the policy monitors and under their own names |
| FixedInterfaceMonitor.StoreMonitored | interface_monitor_fixed.py:619-664 | the loop stores exactly the monitored names' samples and rates with the 64-bit heuristic |
| FixedInterfaceMonitor.DiscoveredMonitored | interface_monitor_fixed.py:621-625 | discovery adds only monitored names |
| FixedInterfaceMonitor.InterfaceMonitor.constructor | interface_monitor_fixed.py:418-452 | settings as configured, nothing stored, unauthenticated, never checked |
| FixedInterfaceMonitor.InterfaceMonitor.CheckAuthentication | interface_monitor_fixed.py:486-502 | authenticated iff the reply reports success; the check time is set only then |
| FixedInterfaceMonitor.InterfaceMonitor.CollectInterfaceStats | interface_monitor_fixed.py:605-672 | false and nothing changed for an empty collection; otherwise the monitored names are stored and, with auto-discovery, discovered |
| FixedInterfaceMonitor.InterfaceMonitor.CollectSessionStats | interface_monitor_fixed.py:674-712 | true iff the reading is accepted, and then it is appended and the list pruned to 24 hours |
| FixedInterfaceMonitor.InterfaceMonitor.WorkerRound | interface_monitor_fixed.py:561-597 | the series becomes `RoundSeries` of the old one; the authentication state becomes `NextAuth`; the counter becomes `FailuresAfter`, stopping exactly at 5; unauthenticated, nothing is collected; authenticated, a non-empty reply stores samples and rates of the monitored names, and the session list takes an accepted reading and keeps the last 24 hours |
| FixedInterfaceMonitor.InterfaceMonitor.MonitoringWorker | interface_monitor_fixed.py:556-603 | the final counter and the number of rounds run are exactly those of `Worker`: it stops after the first round that ends with five failures, and otherwise runs every round; the final authentication state, samples, rates, session readings and discovered names are those of `Run` over the rounds it ran |
| FixedInterfaceMonitor.RunWithoutAuthKeepsSeries | interface_monitor_fixed.py:561-588 | a monitor that is not authenticated and whose every check fails stays unauthenticated and collects nothing |
| FixedInterfaceMonitor.NextAuth | interface_monitor_fixed.py:561-575 | a check that is not due changes nothing; a passed one authenticates and records the time; a failed one clears the flag and keeps the time |
| FixedInterfaceMonitor.Worker | interface_monitor_fixed.py:556-597 | the run ends with at most five failures, runs at most every round, and runs fewer only when five failures were reached |
| FixedInterfaceMonitor.WorkerStopsAfterFailedChecks | interface_monitor_fixed.py:561-597 | a never-authenticated worker whose every check fails stops after exactly five rounds with five failures |

## Left out

- Threads, locks and stop events: `start_collection`, `stop_collection`, `start_monitoring`, `stop_monitoring`, `join(timeout=...)` and `Event.wait` are concurrency. The model runs one worker pass at a time.
- `PanOSClient` (HTTP requests and key generation) is network I/O. Its replies are parameters.
- ElementTree traversal and the `top` regular expression are library calls. The parsers take the values those lookups extract.
- `parse_interface_statistics_your_panos11` and `parse_individual_interface_panos11` issue their own requests. The fixed monitor takes their sample table as a parameter.
- `parse_session_statistics_your_panos11` is also a parameter of the fixed monitor. Its reading is stored as given when its success flag is set.
- Clocks: `datetime.now()` and `time.time()` are parameters. A call reads the clock once, whereas the source re-reads it for every interface it stores.
- File and OS I/O is not modelled: `_save_raw`, `_save_raw_xml`, `cleanup_old_xml_files`, `save_config`, YAML file reading, `write_outputs`, `render_charts`, `load_dotenv`.
- The SQLite database and the web dashboard are not modelled. `register_firewall` and `insert_metrics` become a ghost list of writes. `get_latest_metrics` reads the database and is not modelled.
- Text and number conversion is limited:
  - `float()` and `int()` are modelled for optional sign, digits and one decimal point. Exponents, `inf`, `nan` and underscores are not.
  - `lower()` is ASCII only.
  - Floating-point rounding is not modelled; all arithmetic is exact.
- Aggregation.Aggregate: p95's `ceil(0.95 n)` is computed exactly as `ceil(19 n / 20)`. Float rounding of `0.95 n` is ignored.
- Error and log texts are not modelled. Only whether an error happened is.
- Exception branches are not modelled except where the model gives them a value, such as `Malformed` replies:
  - the fixed worker's `except` around a round;
  - the main loop's `except` around `poll_once`.
- `get_interface_metrics` searches samples by name, not by metric. `get_available_interfaces` and the `get_latest_*` getters are plain reads. None of them is modelled.
- The legacy `_monitoring_worker` is not modelled; it only calls the two collection steps and sleeps, as `Scheduling` models.
- Legacy `_auto_discover_interfaces` is modelled, although nothing in interface_monitor.py calls it.
- A `getattr` on a firewall configuration that yields `None` is not modelled. The firewall's interface settings come as `Option` values.
- FixedInterfaceMonitor.InterfaceMonitor.CollectInterfaceStats: discovery and storage are stated for the whole reply at once. The source interleaves them per interface, but the outcome is the same because discovery does not change the policy.
- LiveMonitor.MonitorLoop: the kill flag is not modelled. The loop runs for exactly the passes given.
- FanIn.BoundedQueue.PutAll: the test at tests/test_collectors.py:65-79 stops at the first refused put, while the model keeps offering. The accepted count is the same, 100.
- Config.BuildFirewall: the fields of a YAML firewall entry are typed in the model. A host, flag or interval of another type, which the dataclass would store unchecked, is not modelled.
- Config.SetGlobal: a global setting holds a string, a boolean or an integer. YAML null, floats, lists and mappings are not modelled, so neither is the TypeError of `web_port:` left empty at config.py:193 nor a `web_port: 80.5` that passes the range check.
- Queue timeouts and blocking puts are not modelled. A put on a full queue fails at once.
- Collectors.MultiFirewallCollector.ProcessNext: a failed database write is not distinguished from a successful one; it is only logged.

## Findings

| source | as written | input that shows it | evidently intended | confidence | as-written member | corrected member |
|---|---|---|---|---|---|---|
| interface_monitor.py:360-363 | the ethernet branch replaces "1/" with "Port " and then prefixes "Port " again | "ethernet1/4" is shown as "Port Port 4" | "Port 4" | high (not executed) | InterfacePolicy.EthernetPortFour | InterfacePolicy.EthernetPortNames |

`InterfacePolicy.DisplayNameAsWritten` keeps the code as written, and the legacy monitor's auto-discovery (`LegacyInterfaceMonitor.AutoConfig`) names new interfaces with it, as the program does. `InterfacePolicy.DisplayName` is the corrected function; `InterfacePolicy.EthernetPortNames` proves that it names every such port "Port N".
