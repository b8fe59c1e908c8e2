/** The Python measurement state of prometheus_ping.py: the `Collector` object's four
    per-target dicts, the `ping` loop body, the `receive` loop body and `Collector.collect`.
    Each is one atomic step on the collector. */
module PyCollector {
  import opened Bytes
  import opened Outcomes
  import opened Targets
  import opened PyTimestamp
  import opened Settings
  import RsMonitor

  /** The last `n` elements of `s`, or all of them if there are fewer: `s[-n:]`. */
  function LastN(s: seq<int>, n: nat): (r: seq<int>)
    ensures |r| == if |s| > n then n else |s|
    ensures r == s[|s| - |r|..]
  {
    if |s| > n then s[|s| - n..] else s
  }

  /** `latencies.append(delay)`, then keep the last `SAMPLES` entries if there are more. */
  function Appended(h: seq<int>, x: int): (r: seq<int>)
    ensures |r| == if |h| + 1 > SAMPLES then SAMPLES else |h| + 1
  {
    LastN(h + [x], SAMPLES)
  }

  /** The new delay is the last entry, and the entries before it are the newest ones of
      the old list: when full, only the oldest entry is dropped. */
  lemma AppendedKeepsNewest(h: seq<int>, x: int)
    ensures var r := Appended(h, x);
            r[|r| - 1] == x && r[..|r| - 1] == h[|h| + 1 - |r|..]
  {
  }

  /** Delays appended one after another, `xs[0]` first. */
  function AppendAll(h: seq<int>, xs: seq<int>): (r: seq<int>)
    decreases |xs|
  {
    if xs == [] then h else AppendAll(Appended(h, xs[0]), xs[1..])
  }

  /** Trimming before appending more does not change what the final trim keeps. */
  lemma LastNAbsorbs(a: seq<int>, b: seq<int>, n: nat)
    ensures LastN(LastN(a, n) + b, n) == LastN(a + b, n)
  {
    if |a| > n {
      var d := |a| - n;
      assert LastN(a, n) + b == (a + b)[d..];
      var c := a + b;
      assert c[d..][|c| - d - n..] == c[|c| - n..];
    }
  }

  /** After any run of replies, the list holds the last `SAMPLES` delays of everything seen,
      oldest first. */
  lemma {:induction false} AppendAllKeepsLast(h: seq<int>, xs: seq<int>)
    requires |h| <= SAMPLES
    ensures AppendAll(h, xs) == LastN(h + xs, SAMPLES)
    decreases |xs|
  {
    if xs == [] {
      assert h + xs == h;
    } else {
      var h1 := Appended(h, xs[0]);
      AppendAllKeepsLast(h1, xs[1..]);
      LastNAbsorbs(h + [xs[0]], xs[1..], SAMPLES);
      assert h + [xs[0]] + xs[1..] == h + xs;
    }
  }

  /** Starting from an empty list, the list holds the last `SAMPLES` delays seen. */
  lemma AppendAllFromEmpty(xs: seq<int>)
    ensures AppendAll([], xs) == LastN(xs, SAMPLES)
  {
    AppendAllKeepsLast([], xs);
    assert [] + xs == xs;
  }

  /** Thirty-one replies into an empty list keep the last thirty and drop the first. */
  lemma CapacityEvictsOldest(xs: seq<int>)
    requires |xs| == SAMPLES + 1
    ensures AppendAll([], xs) == xs[1..]
  {
    AppendAllFromEmpty(xs);
  }

  function Sum(xs: seq<int>): (r: int) {
    if xs == [] then 0 else Sum(xs[..|xs| - 1]) + xs[|xs| - 1]
  }

  /** `sum(latencies) / len(latencies) / 1e9`, in seconds, for a non-empty list only. */
  function Average(xs: seq<int>): (avg: Option<real>)
    ensures avg.Some? <==> xs != []
    ensures avg.Some? ==> avg.value * (|xs| as real) * 1_000_000_000.0 == Sum(xs) as real
  {
    if xs == [] then None else Some(Sum(xs) as real / |xs| as real / 1_000_000_000.0)
  }

  /** `sent - received`, then `-= in_flight`, on unbounded ints. */
  function Loss(sent: int, received: int, inFlight: int): (r: int)
    ensures r + received + inFlight == sent
  {
    sent - received - inFlight
  }

  /** On the same counters, the Python loss is negative exactly where the Rust loss
      expression panics, and equal to it everywhere else. */
  lemma LossAgreesWithRust(t: RsMonitor.TargetInfo)
    ensures RsMonitor.PacketLoss(t).Err? <==> Loss(t.sendCounter, t.recvCounter, t.inFlight) < 0
    ensures RsMonitor.PacketLoss(t).Ok? ==>
              RsMonitor.PacketLoss(t).value == Loss(t.sendCounter, t.recvCounter, t.inFlight)
  {
  }

  /** The send counters after the visits in `visited`: one more per visiting address. */
  function SentAfter(counters: map<Label, int>, targets: map<SocketAddr, Label>,
                     visited: seq<SocketAddr>): (r: map<Label, int>)
    ensures r.Keys == counters.Keys
  {
    map l | l in counters :: counters[l] + Hits(visited, targets, l)
  }

  /** The in-flight flags after the visits in `visited`: 1 for every visited label. */
  function FlaggedAfter(flags: map<Label, int>, targets: map<SocketAddr, Label>,
                        visited: seq<SocketAddr>): (r: map<Label, int>)
    ensures r.Keys == flags.Keys
    ensures forall l :: l in r ==> r[l] == 1 || r[l] == flags[l]
  {
    map l | l in flags :: if Hits(visited, targets, l) > 0 then 1 else flags[l]
  }

  /** Visiting one more address counts one more probe for its label and flags it. */
  lemma PingStep(counters: map<Label, int>, flags: map<Label, int>,
                 targets: map<SocketAddr, Label>, order: seq<SocketAddr>, i: nat)
    requires i < |order| && order[i] in targets
    requires targets[order[i]] in counters && targets[order[i]] in flags
    ensures var l := targets[order[i]];
            var sent := SentAfter(counters, targets, order[..i]);
            SentAfter(counters, targets, order[..i + 1]) == sent[l := sent[l] + 1] &&
            FlaggedAfter(flags, targets, order[..i + 1]) == FlaggedAfter(flags, targets, order[..i])[l := 1]
  {
    var target := targets[order[i]];
    forall l | l in counters
      ensures Hits(order[..i + 1], targets, l) == Hits(order[..i], targets, l) + (if Carries(targets, order[i], l) then 1 else 0)
    {
      HitsAppend(order, targets, i, l);
    }
    forall l | l in flags
      ensures Hits(order[..i + 1], targets, l) == Hits(order[..i], targets, l) + (if Carries(targets, order[i], l) then 1 else 0)
    {
      HitsAppend(order, targets, i, l);
    }
  }

  /** A full ping cycle over distinct labels adds exactly one to every send counter and
      flags every target. */
  lemma PingCycleOnce(counters: map<Label, int>, flags: map<Label, int>,
                      targets: map<SocketAddr, Label>, order: seq<SocketAddr>)
    requires IsIterationOrder(order, targets) && Injective(targets)
    requires counters.Keys == targets.Values && flags.Keys == targets.Values
    ensures SentAfter(counters, targets, order) == map l | l in counters :: counters[l] + 1
    ensures FlaggedAfter(flags, targets, order) == map l | l in flags :: 1
  {
    forall l | l in counters ensures Hits(order, targets, l) == 1 {
      HitsOnce(order, targets, l);
    }
  }

  /** Every target's label is one of `labels`. */
  predicate Labelled(targets: map<SocketAddr, Label>, labels: set<Label>) {
    forall a :: a in targets ==> targets[a] in labels
  }

  /** The four dicts have the same labels, no list is longer than `SAMPLES`, and every
      in-flight flag is 0 or 1. */
  predicate Tracked(sent: map<Label, int>, received: map<Label, int>, lists: map<Label, seq<int>>,
                    flags: map<Label, int>) {
    received.Keys == sent.Keys && lists.Keys == sent.Keys && flags.Keys == sent.Keys &&
    (forall l :: l in lists ==> |lists[l]| <= SAMPLES) &&
    (forall l :: l in flags ==> 0 <= flags[l] <= 1)
  }

  /** `latencies.append(delay)` followed by `latencies[:] = latencies[-SAMPLES:]` when the
      list has grown past `SAMPLES`. */
  method AppendTrimmed(list: seq<int>, delay: int) returns (r: seq<int>)
    ensures r == Appended(list, delay)
  {
    r := list + [delay];
    if |r| > SAMPLES {
      r := r[|r| - SAMPLES..];
    }
  }

  datatype ReceiveOutcome = Discarded | Recorded(target: Label, delay: int) | Crashed

  /** `Collector`: the source label and the four dicts keyed by target label. */
  class Collector {
    const source: string
    var sendCounters: map<Label, int>
    var recvCounters: map<Label, int>
    var latencies: map<Label, seq<int>>
    var inFlight: map<Label, int>

    ghost predicate Valid()
      reads this
    {
      Tracked(sendCounters, recvCounters, latencies, inFlight)
    }

    /** `Collector.__init__`: zero counters, no flag and an empty list for every label. */
    constructor (source: string, targets: map<SocketAddr, Label>)
      ensures Valid()
      ensures this.source == source
      ensures sendCounters == map l | l in targets.Values :: 0
      ensures recvCounters == map l | l in targets.Values :: 0
      ensures latencies == map l | l in targets.Values :: []
      ensures inFlight == map l | l in targets.Values :: 0
    {
      this.source := source;
      sendCounters := map target | target in targets.Values :: 0;
      recvCounters := map target | target in targets.Values :: 0;
      latencies := map target | target in targets.Values :: [];
      inFlight := map target | target in targets.Values :: 0;
    }

    /** One pass of the `ping` loop over `targets.items()` in `order`. `sock.sendto` raises
        at the visit with index `failAt` (none if `failAt >= |order|`); the exception ends the
        thread before that target is counted, and `finished` is false. */
    method Ping(targets: map<SocketAddr, Label>, order: seq<SocketAddr>, failAt: nat)
      returns (finished: bool)
      requires Valid() && Labelled(targets, sendCounters.Keys) && Visits(order, targets)
      modifies this
      ensures Valid()
      ensures finished <==> failAt >= |order|
      ensures var visited := if finished then order else order[..failAt];
              sendCounters == SentAfter(old(sendCounters), targets, visited) &&
              inFlight == FlaggedAfter(old(inFlight), targets, visited)
      ensures recvCounters == old(recvCounters) && latencies == old(latencies)
    {
      ghost var sent0, flags0 := sendCounters, inFlight;
      // The two dicts are updated in locals and written back when the loop stops; the pass
      // is one atomic step, so the final state is the same.
      var sent, flags := sendCounters, inFlight;
      var i := 0;
      while i < |order| && i != failAt
        invariant 0 <= i <= |order| && i <= failAt
        invariant sent == SentAfter(sent0, targets, order[..i])
        invariant flags == FlaggedAfter(flags0, targets, order[..i])
        modifies {}
      {
        var target := targets[order[i]];
        PingStep(sent0, flags0, targets, order, i);
        sent := sent[target := sent[target] + 1];
        flags := flags[target := 1];
        i := i + 1;
      }
      finished := i == |order|;
      assert finished ==> order[..i] == order;
      assert sent.Keys == sent0.Keys && flags.Keys == flags0.Keys;
      sendCounters, inFlight := sent, flags;
    }

    /** One pass of the `receive` loop for datagram `data` from `addr` at counter reading
        `now`. There is no length check: a datagram of another length from a target is
        counted as received before `get_delay` raises and ends the loop. */
    method Receive(targets: map<SocketAddr, Label>, data: seq<byte>, addr: SocketAddr, now: int)
      returns (outcome: ReceiveOutcome)
      requires Valid() && Labelled(targets, sendCounters.Keys)
      modifies this
      ensures Valid()
      ensures sendCounters == old(sendCounters)
      ensures addr !in targets ==>
                outcome == Discarded && recvCounters == old(recvCounters) &&
                inFlight == old(inFlight) && latencies == old(latencies)
      ensures addr in targets ==>
                var target := targets[addr];
                recvCounters == old(recvCounters)[target := old(recvCounters)[target] + 1] &&
                inFlight == old(inFlight)[target := 0]
      ensures addr in targets && |data| != 8 ==> outcome == Crashed && latencies == old(latencies)
      ensures addr in targets && |data| == 8 ==>
                var target := targets[addr];
                var delay := now - FromBigEndian(data);
                outcome == Recorded(target, delay) &&
                latencies == old(latencies)[target := Appended(old(latencies)[target], delay)]
    {
      if addr !in targets {
        return Discarded;
      }
      var target := targets[addr];
      outcome := RecordReply(target, data, now);
    }

    /** The rest of the `receive` loop body once `targets[addr]` has found `target`. */
    method RecordReply(target: Label, data: seq<byte>, now: int) returns (outcome: ReceiveOutcome)
      requires Valid() && target in sendCounters
      modifies this
      ensures Valid()
      ensures sendCounters == old(sendCounters)
      ensures recvCounters == old(recvCounters)[target := old(recvCounters)[target] + 1]
      ensures inFlight == old(inFlight)[target := 0]
      ensures |data| != 8 ==> outcome == Crashed && latencies == old(latencies)
      ensures |data| == 8 ==>
                var delay := now - FromBigEndian(data);
                outcome == Recorded(target, delay) &&
                latencies == old(latencies)[target := Appended(old(latencies)[target], delay)]
    {
      recvCounters := recvCounters[target := recvCounters[target] + 1];
      inFlight := inFlight[target := 0];
      var delay := GetDelay(now, data);
      if delay == Err {
        return Crashed;
      }
      var list := AppendTrimmed(latencies[target], delay.value);
      latencies := latencies[target := list];
      outcome := Recorded(target, delay.value);
    }

    /** `Collector.collect`: the loss of every target, and the average latency (seconds)
        over the whole list of every target whose list is not empty. */
    method Collect() returns (loss: map<Label, int>, latencyAvg: map<Label, real>)
      requires Valid()
      ensures loss.Keys == sendCounters.Keys
      ensures forall l :: l in loss ==> loss[l] == Loss(sendCounters[l], recvCounters[l], inFlight[l])
      ensures latencyAvg.Keys == set l | l in latencies && latencies[l] != []
      ensures forall l :: l in latencyAvg ==> Average(latencies[l]) == Some(latencyAvg[l])
    {
      loss := map[];
      var todo := sendCounters.Keys;
      while todo != {}
        invariant todo <= sendCounters.Keys
        invariant loss.Keys == sendCounters.Keys - todo
        invariant forall l :: l in loss ==> loss[l] == Loss(sendCounters[l], recvCounters[l], inFlight[l])
        decreases todo
      {
        var target :| target in todo;
        var sent := sendCounters[target];
        var received := recvCounters[target];
        var lost := sent - received;
        lost := lost - inFlight[target];
        loss := loss[target := lost];
        todo := todo - {target};
      }
      latencyAvg := map[];
      todo := latencies.Keys;
      while todo != {}
        invariant todo <= latencies.Keys
        invariant latencyAvg.Keys == set l | l in latencies && l !in todo && latencies[l] != []
        invariant forall l :: l in latencyAvg ==> Average(latencies[l]) == Some(latencyAvg[l])
        decreases todo
      {
        var target :| target in todo;
        var list := latencies[target];
        if list != [] {
          latencyAvg := latencyAvg[target := Sum(list) as real / |list| as real / 1_000_000_000.0];
        }
        todo := todo - {target};
      }
    }
  }
}
