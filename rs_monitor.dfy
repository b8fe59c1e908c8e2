/** The Rust measurement state of src/main.rs: the per-target `TargetInfo` records behind the
    mutex, the prober loop body, the receiver loop body and `PingCollector::collect`. Each
    of the three is one atomic step on the store. */
module RsMonitor {
  import opened Bytes
  import opened Outcomes
  import opened Targets
  import opened RsTimestamp
  import opened RsHistory
  import opened Settings

  /** `TargetInfo`: probes sent, replies matched, the in-flight flag and the history. */
  datatype TargetInfo = TargetInfo(sendCounter: nat, recvCounter: nat, latencies: seq<Sample>, inFlight: nat)

  /** `TargetInfo::default()`. */
  const Fresh: TargetInfo := TargetInfo(0, 0, [], 0)

  /** The store built at startup: one zeroed record per configured label. */
  function InitialInfo(targets: map<SocketAddr, Label>): (info: map<Label, TargetInfo>)
    ensures info.Keys == targets.Values
    ensures forall l :: l in info ==> info[l] == Fresh
  {
    map l | l in targets.Values :: Fresh
  }

  /** One probe of a target: `send_counter += 1; in_flight = 1`. */
  function ProbeOne(t: TargetInfo): (r: TargetInfo)
    ensures r.sendCounter == t.sendCounter + 1 && r.inFlight == 1
    ensures r.recvCounter == t.recvCounter && r.latencies == t.latencies
  {
    t.(sendCounter := t.sendCounter + 1, inFlight := 1)
  }

  /** The store after one prober cycle over `order`: each label is probed once per address
      that carries it, whatever the outcome of the send. */
  function ProbeCycleSpec(info: map<Label, TargetInfo>, targets: map<SocketAddr, Label>,
                          order: seq<SocketAddr>): (r: map<Label, TargetInfo>)
    ensures r.Keys == info.Keys
    ensures forall l :: l in r ==> r[l].latencies == info[l].latencies && (r[l] == info[l] || r[l].inFlight == 1)
  {
    map l | l in info ::
      var k := Hits(order, targets, l);
      if k == 0 then info[l] else info[l].(sendCounter := info[l].sendCounter + k, inFlight := 1)
  }

  /** A matched reply: `recv_counter += 1; in_flight = 0` and the sample pushed in front. */
  function Replied(t: TargetInfo, s: Sample): (r: TargetInfo)
    ensures r.sendCounter == t.sendCounter && r.recvCounter == t.recvCounter + 1 && r.inFlight == 0
    ensures |r.latencies| == Min(|t.latencies| + 1, SAMPLES)
    ensures r.latencies[0] == s && r.latencies[1..] == t.latencies[..|r.latencies| - 1]
  {
    t.(recvCounter := t.recvCounter + 1, inFlight := 0, latencies := PushSample(t.latencies, s))
  }

  /** `send_counter - recv_counter - in_flight` on `u64`, evaluated left to right; either
      subtraction panics when it would go below zero. */
  function PacketLoss(t: TargetInfo): (r: Result<nat>)
    ensures r.Ok? <==> t.recvCounter + t.inFlight <= t.sendCounter
    ensures r.Ok? ==> r.value + t.recvCounter + t.inFlight == t.sendCounter
  {
    if t.sendCounter < t.recvCounter then Err
    else
      var d := t.sendCounter - t.recvCounter;
      if d < t.inFlight then Err else Ok(d - t.inFlight)
  }

  /** The same expression in a build without overflow checks: each `u64` subtraction wraps. */
  function WrappingLoss(t: TargetInfo): (r: nat)
    ensures r < U64
    ensures (r + t.recvCounter + t.inFlight) % U64 == t.sendCounter % U64
  {
    var d := (t.sendCounter - t.recvCounter) % U64;
    (d - t.inFlight) % U64
  }

  /** Where the checked expression does not panic, the wrapping one agrees with it. */
  lemma WrappingAgrees(t: TargetInfo)
    requires t.sendCounter < U64 && PacketLoss(t).Ok?
    ensures WrappingLoss(t) == PacketLoss(t).value
  {
  }

  /** One reply too many wraps round to 2^64 - 1 lost packets in such a build. */
  lemma WrappingUnderflow()
    ensures PacketLoss(Fresh.(recvCounter := 1)) == Err
    ensures WrappingLoss(Fresh.(recvCounter := 1)) == U64 - 1
  {
  }

  /** Sending a probe counts the previous one as lost if it was still in flight. */
  lemma ProbeLoss(t: TargetInfo)
    requires PacketLoss(t).Ok?
    ensures PacketLoss(ProbeOne(t)) == Ok(PacketLoss(t).value + t.inFlight)
  {
  }

  /** After a reply, the loss is defined exactly when more probes were sent than replies
      had been received; it then drops by one if no probe was in flight. */
  lemma ReplyLoss(t: TargetInfo, s: Sample)
    requires t.inFlight <= 1
    ensures PacketLoss(Replied(t, s)).Ok? <==> t.recvCounter < t.sendCounter
    ensures PacketLoss(t).Ok? && t.inFlight == 1 ==> PacketLoss(Replied(t, s)) == PacketLoss(t)
    ensures PacketLoss(t).Ok? && t.inFlight == 0 && t.recvCounter < t.sendCounter ==>
              PacketLoss(Replied(t, s)) == Ok(PacketLoss(t).value - 1)
  {
  }

  /** A reply that arrives before any probe (a duplicate, or unsolicited traffic from a
      target's address) makes the loss expression panic. */
  lemma UnsolicitedReplyPanics(s: Sample)
    ensures PacketLoss(Replied(Fresh, s)) == Err
  {
  }

  /** What happens to one record over time. */
  datatype Event = Probe | Reply(sample: Sample)

  function Run(t: TargetInfo, evs: seq<Event>): (r: TargetInfo) {
    if evs == [] then t
    else
      var before := Run(t, evs[..|evs| - 1]);
      match evs[|evs| - 1]
      case Probe => ProbeOne(before)
      case Reply(s) => Replied(before, s)
  }

  function Probes(evs: seq<Event>): (r: nat) {
    if evs == [] then 0 else Probes(evs[..|evs| - 1]) + (if evs[|evs| - 1].Probe? then 1 else 0)
  }

  function Replies(evs: seq<Event>): (r: nat) {
    if evs == [] then 0 else Replies(evs[..|evs| - 1]) + (if evs[|evs| - 1].Reply? then 1 else 0)
  }

  /** No prefix of the history has more replies than probes. */
  predicate Matched(evs: seq<Event>) {
    forall k :: 0 <= k <= |evs| ==> Replies(evs[..k]) <= Probes(evs[..k])
  }

  /** From a fresh record, the counters count the events and the flag says whether the last
      event was a probe. */
  lemma {:induction false} RunCounts(evs: seq<Event>)
    ensures Run(Fresh, evs).sendCounter == Probes(evs)
    ensures Run(Fresh, evs).recvCounter == Replies(evs)
    ensures Run(Fresh, evs).inFlight == if evs != [] && evs[|evs| - 1].Probe? then 1 else 0
  {
    if evs != [] {
      RunCounts(evs[..|evs| - 1]);
    }
  }

  /** As long as replies never outnumber probes, the loss is defined (never negative, no
      panic) and equals probes minus replies minus the in-flight flag. */
  lemma {:induction false} MatchedRunHasLoss(evs: seq<Event>)
    requires Matched(evs)
    ensures PacketLoss(Run(Fresh, evs)).Ok?
    ensures PacketLoss(Run(Fresh, evs)).value == Probes(evs) - Replies(evs) - Run(Fresh, evs).inFlight
  {
    RunCounts(evs);
    if evs != [] {
      var init := evs[..|evs| - 1];
      forall k | 0 <= k <= |init| ensures Replies(init[..k]) <= Probes(init[..k]) {
        assert init[..k] == evs[..k];
      }
      MatchedRunHasLoss(init);
      RunCounts(init);
      assert evs[..|evs|] == evs;
    }
  }

  /** `n` prober cycles against one target: each probe answered by `answer` if given,
      or never answered. */
  function Cycles(n: nat, answer: Option<Sample>): (r: seq<Event>) {
    if n == 0 then []
    else
      Cycles(n - 1, answer) + match answer { case None => [Probe] case Some(s) => [Probe, Reply(s)] }
  }

  lemma {:induction false} CyclesCounters(n: nat, answer: Option<Sample>)
    ensures Run(Fresh, Cycles(n, answer)).sendCounter == n
    ensures Run(Fresh, Cycles(n, answer)).recvCounter == if answer.Some? then n else 0
    ensures Run(Fresh, Cycles(n, answer)).inFlight == if n > 0 && answer.None? then 1 else 0
  {
    if n > 0 {
      CyclesCounters(n - 1, answer);
      var pre := Cycles(n - 1, answer);
      match answer
      case None =>
        assert (pre + [Probe])[..|pre|] == pre;
        assert Run(Fresh, pre + [Probe]) == ProbeOne(Run(Fresh, pre));
      case Some(s) =>
        var evs := pre + [Probe, Reply(s)];
        assert evs[..|evs| - 1] == pre + [Probe];
        assert (pre + [Probe])[..|pre|] == pre;
        assert Run(Fresh, pre + [Probe]) == ProbeOne(Run(Fresh, pre));
        assert Run(Fresh, evs) == Replied(Run(Fresh, pre + [Probe]), s);
    }
  }

  /** The end-to-end scenario: after `n` cycles a black-holed target shows `n - 1` lost
      probes (the last one is in flight) and an always answering target shows none. */
  lemma CyclesLoss(n: nat, s: Sample)
    requires n >= 1
    ensures PacketLoss(Run(Fresh, Cycles(n, None))) == Ok(n - 1)
    ensures PacketLoss(Run(Fresh, Cycles(n, Some(s)))) == Ok(0)
  {
    CyclesCounters(n, None);
    CyclesCounters(n, Some(s));
  }

  /** Visiting one more address probes its label once more. */
  lemma ProbeCycleStep(info: map<Label, TargetInfo>, targets: map<SocketAddr, Label>,
                       order: seq<SocketAddr>, i: nat)
    requires i < |order| && order[i] in targets && targets[order[i]] in info
    ensures var cur := ProbeCycleSpec(info, targets, order[..i]);
            var l := targets[order[i]];
            ProbeCycleSpec(info, targets, order[..i + 1]) == cur[l := ProbeOne(cur[l])]
  {
    var cur := ProbeCycleSpec(info, targets, order[..i]);
    var next := ProbeCycleSpec(info, targets, order[..i + 1]);
    var target := targets[order[i]];
    forall l | l in info ensures next[l] == cur[target := ProbeOne(cur[target])][l] {
      HitsAppend(order, targets, i, l);
    }
  }

  /** A prober cycle over a map with distinct labels probes every target exactly once:
      one more probe sent, in flight, nothing else changed. */
  lemma ProbeCycleOnce(info: map<Label, TargetInfo>, targets: map<SocketAddr, Label>,
                       order: seq<SocketAddr>)
    requires IsIterationOrder(order, targets) && Injective(targets)
    requires info.Keys == targets.Values
    ensures ProbeCycleSpec(info, targets, order) == map l | l in info :: ProbeOne(info[l])
  {
    forall l | l in info ensures Hits(order, targets, l) == 1 {
      HitsOnce(order, targets, l);
    }
  }

  /** Whatever the labels, a prober cycle sends at least one more probe to every target,
      marks it in flight and leaves its receive counter and history alone. */
  lemma ProbeCycleTouchesAll(info: map<Label, TargetInfo>, targets: map<SocketAddr, Label>,
                             order: seq<SocketAddr>, l: Label)
    requires IsIterationOrder(order, targets)
    requires info.Keys == targets.Values && l in info
    ensures var after := ProbeCycleSpec(info, targets, order);
            after.Keys == info.Keys &&
            after[l].sendCounter > info[l].sendCounter && after[l].inFlight == 1 &&
            after[l].recvCounter == info[l].recvCounter && after[l].latencies == info[l].latencies
  {
    var a :| a in targets && targets[a] == l;
    HitsCovers(order, targets, a);
  }

  datatype ReplyOutcome = Discarded | Recorded(target: Label, delay: nat) | Panicked

  /** Metrics of one collection: the loss per label, and the windowed average (seconds) per
      label whose window is not empty. */
  datatype Metrics = Metrics(loss: map<Label, nat>, latencyAverage: map<Label, real>)

  /** The loss series: one value per label whose loss expression does not panic. */
  function LossSeries(info: map<Label, TargetInfo>): (r: map<Label, nat>) {
    map l | l in info && PacketLoss(info[l]).Ok? :: PacketLoss(info[l]).value
  }

  /** The latency series: one value per label whose window is not empty. */
  function AverageSeries(info: map<Label, TargetInfo>, now: int): (r: map<Label, real>) {
    map l | l in info && WindowAverage(info[l].latencies, now).Some? ::
      WindowAverage(info[l].latencies, now).value
  }

  /** Maps that agree with the loss and the window average at every label are the series. */
  lemma CollectedSeries(info: map<Label, TargetInfo>, now: int,
                        loss: map<Label, nat>, latencyAvg: map<Label, real>)
    requires loss.Keys == info.Keys && latencyAvg.Keys <= info.Keys
    requires forall l :: l in loss ==> PacketLoss(info[l]) == Ok(loss[l])
    requires forall l :: l in loss ==> (l in latencyAvg <==> WindowAverage(info[l].latencies, now).Some?)
    requires forall l :: l in latencyAvg ==> WindowAverage(info[l].latencies, now) == Some(latencyAvg[l])
    ensures loss == LossSeries(info) && latencyAvg == AverageSeries(info, now)
  {
    var series := LossSeries(info);
    assert loss.Keys == series.Keys;
    var averages := AverageSeries(info, now);
    assert latencyAvg.Keys == averages.Keys;
  }

  /** The shared state: the target map and the mutex-guarded map of records. */
  class Monitor {
    const targets: map<SocketAddr, Label>
    var targetsInfo: map<Label, TargetInfo>

    ghost predicate Valid()
      reads this
    {
      targetsInfo.Keys == targets.Values &&
      forall l :: l in targetsInfo ==>
        targetsInfo[l].inFlight <= 1 && |targetsInfo[l].latencies| <= SAMPLES
    }

    /** Startup: a default record for every label. */
    constructor (targets: map<SocketAddr, Label>)
      ensures Valid()
      ensures this.targets == targets && targetsInfo == InitialInfo(targets)
    {
      this.targets := targets;
      targetsInfo := InitialInfo(targets);
    }

    /** One pass of the prober loop, under the lock, over the targets in `order`. The send
        result does not affect the counters, so it is not a parameter. */
    method ProbeCycle(order: seq<SocketAddr>)
      requires Valid() && Visits(order, targets)
      modifies this
      ensures Valid()
      ensures targetsInfo == ProbeCycleSpec(old(targetsInfo), targets, order)
    {
      ghost var info0 := targetsInfo;
      var i := 0;
      while i < |order|
        invariant 0 <= i <= |order|
        invariant targetsInfo == ProbeCycleSpec(info0, targets, order[..i])
      {
        var target := targets[order[i]];
        var targetInfo := targetsInfo[target];
        ProbeCycleStep(info0, targets, order, i);
        targetInfo := targetInfo.(sendCounter := targetInfo.sendCounter + 1, inFlight := 1);
        assert targetInfo == ProbeOne(targetsInfo[target]);
        targetsInfo := targetsInfo[target := targetInfo];
        i := i + 1;
      }
      assert order[..|order|] == order;
    }

    /** One pass of the receiver loop for a datagram of `len` bytes from `src`, received
        into `buf`; `now` is the clock read by `get_delay` and `stamp` the one stored with
        the sample. */
    method Receive(len: nat, src: SocketAddr, buf: seq<byte>, now: nat, stamp: int)
      returns (reply: ReplyOutcome)
      requires Valid() && |buf| == 8
      modifies this
      ensures Valid()
      ensures len != 8 || src !in targets ==> reply == Discarded && targetsInfo == old(targetsInfo)
      ensures len == 8 && src in targets && GetDelay(now, buf) == Err ==>
                reply == Panicked && targetsInfo == old(targetsInfo)
      ensures len == 8 && src in targets && GetDelay(now, buf).Ok? ==>
                var target := targets[src];
                var delay := GetDelay(now, buf).value;
                reply == Recorded(target, delay) &&
                targetsInfo == old(targetsInfo)[target := Replied(old(targetsInfo)[target], Sample(stamp, delay))]
    {
      if len != 8 {
        return Discarded;
      }
      if src !in targets {
        return Discarded;
      }
      var target := targets[src];
      var delay := GetDelay(now, buf);
      if delay == Err {
        return Panicked;
      }
      var targetInfo := targetsInfo[target];
      targetInfo := targetInfo.(recvCounter := targetInfo.recvCounter + 1, inFlight := 0);
      var latencies := targetInfo.latencies;
      if |latencies| + 1 > SAMPLES {
        latencies := latencies[..SAMPLES - 1];
      }
      latencies := [Sample(stamp, delay.value)] + latencies;
      targetsInfo := targetsInfo[target := targetInfo.(latencies := latencies)];
      reply := Recorded(target, delay.value);
    }

    /** `PingCollector::collect` at clock reading `now`: the loss and windowed average of
        every target, or a panic if some target's loss expression underflows. */
    method Collect(now: int) returns (r: Result<Metrics>)
      requires Valid()
      ensures r == Err <==> exists l :: l in targetsInfo && PacketLoss(targetsInfo[l]) == Err
      ensures r.Ok? ==> r.value.loss.Keys == targetsInfo.Keys
      ensures r.Ok? ==> r.value == Metrics(LossSeries(targetsInfo), AverageSeries(targetsInfo, now))
    {
      var info := targetsInfo;
      var loss: map<Label, nat> := map[];
      var latencyAvg: map<Label, real> := map[];
      var todo := info.Keys;
      while todo != {}
        invariant todo <= info.Keys
        invariant loss.Keys == info.Keys - todo
        invariant forall l :: l in loss ==> PacketLoss(info[l]) == Ok(loss[l])
        invariant latencyAvg.Keys <= loss.Keys
        invariant forall l :: l in loss ==>
                    (l in latencyAvg <==> WindowAverage(info[l].latencies, now).Some?)
        invariant forall l :: l in latencyAvg ==> WindowAverage(info[l].latencies, now) == Some(latencyAvg[l])
        decreases todo
      {
        var target :| target in todo;
        var targetInfo := info[target];
        var lost := PacketLoss(targetInfo);
        if lost == Err {
          return Err;
        }
        loss := loss[target := lost.value];
        var latency, count := WindowScan(targetInfo.latencies, now);
        if count > 0 {
          latencyAvg := latencyAvg[target := latency as real / count as real / 1_000_000_000.0];
        }
        todo := todo - {target};
      }
      CollectedSeries(info, now, loss, latencyAvg);
      r := Ok(Metrics(loss, latencyAvg));
    }
  }
}
