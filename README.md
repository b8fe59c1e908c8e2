# prometheus-ping, modelled in Dafny

prometheus-ping is an active latency and loss monitor. Every second it sends a UDP probe
to each configured target. The probe carries only a timestamp, and the target's copy of
the program echoes it back. From the replies it keeps, per target:

- a send counter;
- a receive counter;
- an in-flight flag;
- a bounded latency history.

On each Prometheus scrape it reports two series per target. One is the packet loss. The
other is the average round trip, taken over a recent window. The repository ships two
implementations of the same monitor, `src/main.rs` in Rust and `prometheus_ping.py` in
Python. This project models the measurement core of both.

Modules, leaves first:

| module | file | models |
|---|---|---|
| `Outcomes` | `outcomes.dfy` | `Result` (a value, or a Rust panic / Python exception) and `Option` |
| `Settings` | `settings.dfy` | `SAMPLES`, the capacity both implementations share |
| `Bytes` | `bytes.dfy` | bytes, the `u32`/`u64` ranges, big-endian encoding of naturals and the round trips between the two directions |
| `Targets` | `targets.dfy` | the read-only map from socket address to target label, and an iteration order over it |
| `RsTimestamp` | `rs_timestamp.dfy` | the Rust probe payload: `current_time` (on an 8-byte array, one `write_u32` at a time) and `get_delay` |
| `RsHistory` | `rs_history.dfy` | the Rust latency history (newest first, capacity 30) and the 30-second window scan |
| `RsMonitor` | `rs_monitor.dfy` | `TargetInfo`, the loss formula, and the class `Monitor` (the mutex-guarded map of records) with the prober pass, the receiver pass and `PingCollector::collect` |
| `PyTimestamp` | `py_timestamp.dfy` | the Python probe payload: `struct.pack('>Q', ...)` / `struct.unpack` |
| `PyCollector` | `py_collector.dfy` | the class `Collector` with its four dicts, `ping`, `receive` and `Collector.collect` |

Conventions:

- Times are integer nanoseconds. For Rust this counts from the Unix epoch; for Python it is the
  `perf_counter_ns()` reading.
- Every clock reading is a parameter.
- Iterating the target map visits its keys in some order, the parameter `order`. A Rust
  `HashMap` fixes no order. A Python dict iterates in insertion order, which here is the
  command-line order of the targets (prometheus_ping.py:59-62). Any order is allowed, so that
  one is covered as a special case.
- Rust panics and Python exceptions are `Err` results, or an outcome constructor
  (`Panicked`, `Crashed`). They are never preconditions.
- Counters are unbounded naturals (Rust) or ints (Python).
- Each pass of a loop is one method call on the class: the prober loop body, the receiver loop
  body or collect. In Rust each pass holds the mutex, so it is atomic. The Python program has
  no lock at all, and the model still treats its passes as atomic (see "## Left out").

Where the two implementations or the code's own comments disagree, the model follows the code:

- **Python payload.** The Python payload is one big-endian `u64` of `perf_counter_ns()`. It
  does not follow the seconds-plus-nanoseconds wire layout of the Rust one. Only the sender
  decodes a stamp, and both echo servers return the datagram unchanged, so the two versions
  still interoperate.
- **No length check in Python.** Python's `receive` does not check the datagram's length. A
  datagram of another length from a target is counted as received, and its in-flight flag
  cleared, before `struct.unpack` raises. `receive` runs on the main thread and every other
  thread is a daemon, so the exception ends the process.
- **Loss can go below zero.** With atomic passes, as in Rust, the loss stays non-negative only
  while replies never outnumber probes (`RsMonitor.MatchedRunHasLoss`). A duplicated or
  unsolicited reply breaks that. In Python even matched traffic can read negative, because
  its passes are not atomic (see "## Left out").
  - Rust: the `u64` subtraction panics in a checked build (`RsMonitor.UnsolicitedReplyPanics`)
    and wraps in a release build (`RsMonitor.WrappingUnderflow`).
  - Python: it reports a negative loss (`PyCollector.LossAgreesWithRust`).
- **Python has no time window.** The Python "30s" latency average covers the whole list of the
  last 30 delays, however old they are. Only the Rust collector applies a time window.
- **Labels can repeat.** Two addresses can carry the same label, for example one name given
  twice that resolves differently. The prober then counts one probe per address, so a label can
  gain more than one probe per pass. The model counts these as `Targets.Hits`, and proves that a
  map with distinct labels gains exactly one probe per label (`Targets.HitsOnce`).

## Model

| member | source | states |
|---|---|---|
| Bytes.ToBigEndian | src/main.rs:24-25 | `write_u32::<BigEndian>` (and `struct` format `>Q` on 8 bytes) writes a value below `256^n` as exactly `n` bytes |
| Bytes.FromBigEndian | src/main.rs:32-33 | `read_u32::<BigEndian>` (and `struct.unpack('>Q')` on 8 bytes) reads `n` bytes as a value below `256^n` |
| Bytes.FromToBigEndian | src/main.rs:24-25 | decoding the `n`-byte big-endian encoding of `x < 256^n` gives `x` back |
| Bytes.ToFromBigEndian | src/main.rs:32-33 | every byte string is the `|bs|`-byte encoding of the number it decodes to |
| Bytes.BigEndian32 | src/main.rs:24-25 | the four bytes `write_u32::<BigEndian>` writes are, most significant first, `v / 2^24`, `v / 2^16 % 256`, `v / 256 % 256`, `v % 256` |
| Targets.HitsOnce | src/main.rs:190 | iterating a target map whose labels are distinct visits each label exactly once |
| Targets.HitsCovers | src/main.rs:190 | iterating the target map visits every configured label at least once |
| Targets.HitsSingle | prometheus_ping.py:111 | with distinct labels and no repeated address, the label of `a` is visited once if `a` is visited and never otherwise |
| RsTimestamp.Encode | src/main.rs:19-26 | the payload is 8 bytes: the first 4 are the seconds modulo 2^32 big-endian, the last 4 are the sub-second nanoseconds |
| RsTimestamp.WriteU32 | src/main.rs:24-25 | the cursor write puts the 4-byte big-endian encoding at `pos`, leaves every other byte alone and advances the cursor by 4 |
| RsTimestamp.CurrentTime | src/main.rs:19-26 | after the two writes the 8-byte buffer holds exactly `Encode(now)` |
| RsTimestamp.GetDelay | src/main.rs:28-36 | the delay exists if and only if the decoded send time is not after `now`, and then send time plus delay equals `now`; otherwise the `Duration` subtraction panics |
| RsTimestamp.Decode | src/main.rs:31-34 | `Duration::new(secs, nanos)`: the instant's whole seconds are the seconds field plus `nanos / 10^9`, and its sub-second nanoseconds are `nanos % 10^9` |
| RsTimestamp.DecodeEncode | src/main.rs:19-35 | decoding one's own stamp gives the send time with its seconds taken modulo 2^32; it is never later than the send time, and exact while the seconds fit in 32 bits |
| RsTimestamp.EncodeDecode | src/main.rs:28-34 | a payload whose nanosecond field is below 10^9 is the encoding of the instant it decodes to |
| RsTimestamp.RoundTripDelay | src/main.rs:19-36 | a probe stamped at `sent` and decoded at `now >= sent` yields exactly `now - sent` (before 2106) |
| RsTimestamp.OwnStampNeverPanics | src/main.rs:19-36 | decoding one's own stamp at a later reading never panics, even after the seconds wrap, and the delay is at least the real elapsed time |
| RsTimestamp.FutureStampPanics | src/main.rs:28-36 | before 2106, a stamp from a clock ahead of the receiver's makes `get_delay` panic; once the seconds wrap, a stamp can decode to an earlier instant and not panic |
| RsHistory.PushSample | src/main.rs:227-230 | the new sample is in front, followed by the newest `min(len, 29)` old entries; the length is `min(len + 1, 30)` |
| RsHistory.PushAllKeepsNewest | src/main.rs:227-230 | after any run of insertions the history is the newest 30 samples of everything seen, newest first |
| RsHistory.CapacityEvictsOldest | src/main.rs:227-230 | 31 insertions into an empty history keep the last 30 and evict the first; the last inserted is in front, the second is at the back |
| RsHistory.PushKeepsNewestFirst | src/main.rs:227-230 | with a clock that does not go back, insertion keeps the history ordered newest first |
| RsHistory.WindowLen | src/main.rs:322-330 | the scan keeps a prefix whose entries are all at or after the cutoff, and stops at the first entry before it |
| RsHistory.WindowIsRecentEntries | src/main.rs:322-330 | on a newest-first history, an entry is in the window if and only if it was recorded at or after `now - 30s` |
| RsHistory.WindowScan | src/main.rs:320-330 | the loop's count is the window length and its sum is the sum of the round trips in the window |
| RsHistory.AverageSeconds | src/main.rs:331-334 | an average exists if and only if the window is non-empty, and then average times count times 10^9 equals the summed nanoseconds |
| RsHistory.WindowAverage | src/main.rs:320-334 | a target gets an average if and only if its newest entry is at most 30 seconds old, and the average times the window length times 10^9 is the window's summed round trips |
| RsHistory.WindowExample | src/main.rs:323 | of entries aged 0, 10, 29, 31 and 40 seconds, exactly the first three are averaged |
| RsHistory.CutoffEntryIncluded | src/main.rs:323 | an entry recorded exactly 30 seconds ago is still in the window, because the comparison is strict |
| RsHistory.ClockStepBackHidesEntries | src/main.rs:322-326 | a history whose newest entry is 40 s old, with a current entry behind it (the wall clock stepped back), has an empty window |
| RsMonitor.InitialInfo | src/main.rs:151-154 | the store has exactly the configured labels, each with a default record |
| RsMonitor.Fresh | src/main.rs:235-241 | `TargetInfo::default()`: both counters 0, the flag 0 and an empty history |
| RsMonitor.ProbeOne | src/main.rs:201-202 | a probe raises the send counter by one and sets the flag, leaving the receive counter and the history alone |
| RsMonitor.Replied | src/main.rs:225-230 | a matched reply raises the receive counter by one and clears the flag; the sample goes in front of the newest `min(len, 29)` old entries; the send counter is unchanged |
| RsMonitor.ProbeCycleSpec | src/main.rs:190-203 | a prober pass keeps the labels and every history, and every record is unchanged or marked in flight |
| RsMonitor.PacketLoss | src/main.rs:315 | the loss exists if and only if `recv + in_flight <= send`, and then `loss + recv + in_flight == send`; otherwise a `u64` subtraction panics |
| RsMonitor.WrappingLoss | src/main.rs:315 | without overflow checks the expression is the value below 2^64 that, added to the receive counter and the flag, gives the send counter modulo 2^64 |
| RsMonitor.WrappingAgrees | src/main.rs:315 | where the checked expression does not panic, the wrapping one gives the same loss |
| RsMonitor.WrappingUnderflow | src/main.rs:315 | one reply more than probes panics in a checked build and reports 2^64 - 1 lost packets in a wrapping one |
| RsMonitor.ProbeLoss | src/main.rs:200-202 | sending a probe adds one lost packet exactly when the previous probe was still in flight |
| RsMonitor.ReplyLoss | src/main.rs:225-226 | after a reply the loss is defined if and only if more probes were sent than replies received; it is unchanged if a probe was in flight, and one less otherwise |
| RsMonitor.UnsolicitedReplyPanics | src/main.rs:225-226 | a reply before any probe makes the loss expression panic |
| RsMonitor.RunCounts | src/main.rs:200-226 | from a default record, the counters count probes and replies and the flag says whether the last event was a probe |
| RsMonitor.MatchedRunHasLoss | src/main.rs:315 | while replies never outnumber probes in any prefix, the loss expression never panics, and the loss is probes minus replies minus the flag |
| RsMonitor.CyclesCounters | src/main.rs:200-226 | after `n` prober cycles, `n` probes were sent; `n` replies were received if each probe is answered and none otherwise |
| RsMonitor.CyclesLoss | src/main.rs:315 | after `n >= 1` cycles a target that never answers shows `n - 1` lost (the last probe is in flight) and an always-answering one shows 0 |
| RsMonitor.ProbeCycleStep | src/main.rs:200-202 | visiting one more address probes exactly its label once more |
| RsMonitor.ProbeCycleOnce | src/main.rs:190-203 | over distinct labels, a prober pass sends exactly one probe to every target and marks it in flight |
| RsMonitor.ProbeCycleTouchesAll | src/main.rs:190-203 | in any case, every target gets at least one more probe and is in flight; its receive counter and history are unchanged |
| RsMonitor.CollectedSeries | src/main.rs:314-335 | maps that agree with the loss and the window average at every label are the two series |
| RsMonitor.Monitor.constructor | src/main.rs:151-154 | the store starts as `InitialInfo(targets)` and satisfies the record invariant |
| RsMonitor.Monitor.ProbeCycle | src/main.rs:189-203 | the pass leaves the store as `ProbeCycleSpec` of the old store and keeps the invariant |
| RsMonitor.Monitor.Receive | src/main.rs:214-230 | a datagram not of 8 bytes, or not from a target, changes nothing; a stamp from the future panics with the store unchanged; otherwise the sender's record becomes `Replied(old, Sample(stamp, delay))` and nothing else changes |
| RsMonitor.Monitor.Collect | src/main.rs:300-341 | in a build with overflow checks, collect panics if and only if some target's loss underflows; otherwise it reports one loss per target and one windowed average per target whose window is not empty |
| PyTimestamp.CurrentTime | prometheus_ping.py:19-22 | packing succeeds if and only if the counter is in 0 .. 2^64 - 1, and gives 8 bytes that decode to it |
| PyTimestamp.GetDelay | prometheus_ping.py:25-30 | unpacking succeeds if and only if the buffer has 8 bytes, and then stamp plus delay equals `now` |
| PyTimestamp.RoundTrip | prometheus_ping.py:19-30 | a probe packed at `sent` and unpacked at `now` yields `now - sent`, which may be negative |
| PyTimestamp.PackUnpack | prometheus_ping.py:22-29 | every 8-byte buffer is the packing of the value it unpacks to |
| PyCollector.Appended | prometheus_ping.py:167-170 | after append-and-trim the list has `min(len + 1, 30)` entries |
| PyCollector.AppendedKeepsNewest | prometheus_ping.py:167-170 | the new delay is last and the entries before it are the newest ones of the old list |
| PyCollector.LastNAbsorbs | prometheus_ping.py:170 | trimming to the last `n` before appending more does not change what the final trim keeps |
| PyCollector.AppendTrimmed | prometheus_ping.py:168-170 | appending the delay and then trimming to the last 30 when the list is longer gives exactly `Appended` of the old list |
| PyCollector.LastN | prometheus_ping.py:170 | `s[-n:]` is the suffix of `s` of length `min(len(s), n)` |
| PyCollector.AppendAllKeepsLast | prometheus_ping.py:167-170 | after any run of replies, the list is the last 30 delays of everything seen, oldest first |
| PyCollector.AppendAllFromEmpty | prometheus_ping.py:167-170 | from an empty list, any run of replies leaves the last 30 delays seen, oldest first |
| PyCollector.CapacityEvictsOldest | prometheus_ping.py:167-170 | 31 replies into an empty list keep the last 30 and drop the first |
| PyCollector.Average | prometheus_ping.py:146-149 | an average exists if and only if the list is non-empty, and then average times length times 10^9 equals the sum |
| PyCollector.LossAgreesWithRust | prometheus_ping.py:135-138 | the unbounded Python loss is negative exactly where the Rust expression panics, and equal to the Rust loss everywhere else |
| PyCollector.Loss | prometheus_ping.py:137-138 | the loss plus the receive counter plus the flag is the send counter, with no bound below |
| PyCollector.SentAfter | prometheus_ping.py:111-113 | the send counters after a partial pass keep the same labels |
| PyCollector.FlaggedAfter | prometheus_ping.py:111-114 | the in-flight flags after a partial pass keep the same labels, and each flag is 1 or its old value |
| PyCollector.PingStep | prometheus_ping.py:112-114 | visiting one more address adds one to its label's send counter and sets its flag |
| PyCollector.PingCycleOnce | prometheus_ping.py:111-114 | over distinct labels, a full ping pass adds exactly one to every send counter and flags every target |
| PyCollector.Collector.constructor | prometheus_ping.py:118-123 | the four dicts have exactly the configured labels: counters and flags 0, lists empty; every pass of the class then keeps the dicts on the same labels, each list at most 30 long and each flag 0 or 1 (`Collector.Valid`) |
| PyCollector.Collector.Ping | prometheus_ping.py:108-114 | the pass finishes if and only if no `sendto` raises; the counters and flags are updated for exactly the addresses visited before the failure; receive counters and lists are unchanged |
| PyCollector.Collector.Receive | prometheus_ping.py:157-170 | a datagram not from a target changes nothing; otherwise the receive counter goes up and the flag is cleared; an 8-byte datagram appends its delay, and any other length raises with the lists unchanged |
| PyCollector.Collector.RecordReply | prometheus_ping.py:164-170 | the matched part of the receive pass: counter, flag, then either the crash or the appended and trimmed list |
| PyCollector.Collector.Collect | prometheus_ping.py:125-154 | one loss per label, each `sent - received - in_flight`, and an average for exactly the labels with a non-empty list |

## Left out

- Threads, the mutex and scheduling are left out. Each loop pass is one atomic method call,
  and the activities interleave only between calls. `RsMonitor.Run` follows the probe and
  reply events of a single record. No lemma links a sequence of `Monitor.ProbeCycle` and
  `Monitor.Receive` calls to it.
- PyCollector.Collector: the Python passes are not atomic in the source, but the model assumes
  they are. `ping`, `receive` and `collect` run on three threads with no lock
  (prometheus_ping.py:111-114, 164-170, 135-149), so a scrape can run in the middle of a pass:
  - A scrape between prometheus_ping.py:164 and 165 reads a loss of -1 on perfectly matched
    traffic: the receive counter is already raised, but the flag is still 1.
  - A scrape between prometheus_ping.py:113 and 114, after a reply, reads one lost packet too
    many: the send counter is raised, but the flag is still 0.
- Mutex poisoning is left out. In the source, a panic in collect while it holds the lock makes
  every later `lock().unwrap()` panic too.
- After a failure the source never runs that loop again, but the model lets the class's
  methods be called once more. This covers `finished == false` from
  `PyCollector.Collector.Ping` (the ping thread is dead for good), `Crashed` from
  `PyCollector.Collector.Receive` and `Panicked` from `RsMonitor.Monitor.Receive` (both end the
  process).
- Sockets, `recv_from`/`recvfrom`, `send_to`/`sendto`, the echo server, the sleep between
  passes, command-line parsing, DNS resolution, Prometheus registration and the HTTP handler
  are left out. They are parameters or outside the core:
  - the datagram length and sender are inputs of `Receive`;
  - a failing `sendto` in Python is `failAt`;
  - a failing `send_to` in Rust is only logged, so it is not a parameter.
- RsMonitor.Monitor.Receive: takes the length `recv_from` reports as given. A datagram longer than
  8 bytes is truncated by the operating system, and the model does not say what length is
  reported for it.
- RsMonitor.Monitor.Collect: models a build with overflow checks. A release build never panics
  there and reports `RsMonitor.WrappingLoss` for each label instead; no method models that
  build, only the lemmas `WrappingLoss`, `WrappingAgrees` and `WrappingUnderflow`.
- RsMonitor.Monitor.Collect: returns the values of the two series per label, not the Prometheus
  metric families. The metric names, help texts and the `source` label are left out.
- PyCollector.Collector.Collect: likewise returns the values, without the metric families.
- RsHistory.Sample: stores the round trip as integer nanoseconds, where the source keeps an
  `f64` of seconds. Averages are exact reals, so `f64` rounding is not modelled.
- RsMonitor.TargetInfo: its counters are unbounded. A `u64` counter overflowing after 2^64 probes
  is not modelled.
- A `SystemTime` before the epoch, and `now - 30s` underflowing in collect, are not modelled.
  Times are plain integers.
- The clock returning to an earlier value is allowed everywhere, except in two lemmas:
  - `RsHistory.PushKeepsNewestFirst` assumes a clock that does not go back.
  - `RsHistory.WindowIsRecentEntries` requires a newest-first history. The wall clock
    (`SystemTime`) only gives one when it never stepped back. After a step back, the scan can
    stop early: `[Sample(now - 40s, _), Sample(now, _)]` has a window of length 0.
- The relation between `send_counter`, `recv_counter` and the in-flight flag is not enforced
  by either implementation, so it is not a class invariant. It is proved over event traces
  instead (`RsMonitor.MatchedRunHasLoss`).
