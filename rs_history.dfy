/** The Rust latency history of one target (src/main.rs `TargetInfo::latencies`, a
    `VecDeque` kept newest first) and the 30-second window scan of `PingCollector::collect`. */
module RsHistory {
  import opened Outcomes
  import opened Settings

  /** `Duration::from_secs(SAMPLES as u64)` in nanoseconds. */
  const WindowNanos: nat := SAMPLES * 1_000_000_000

  /** One history entry: when the reply was recorded (nanoseconds since the epoch) and
      the measured round trip in nanoseconds. */
  datatype Sample = Sample(when: int, rtt: nat)

  function Min(a: int, b: int): (r: int) { if a <= b then a else b }

  /** The receiver's insertion: truncate to `SAMPLES - 1` entries when full, then push the
      new sample to the front. */
  function PushSample(h: seq<Sample>, s: Sample): (r: seq<Sample>)
    ensures |r| == Min(|h| + 1, SAMPLES)
    ensures r[0] == s
    ensures r[1..] == h[..|r| - 1]
    ensures |h| >= SAMPLES ==> |r| == SAMPLES
  {
    if |h| + 1 > SAMPLES then [s] + h[..SAMPLES - 1] else [s] + h
  }

  /** Samples inserted one after another, `xs[0]` first. */
  function PushAll(h: seq<Sample>, xs: seq<Sample>): (r: seq<Sample>)
    decreases |xs|
  {
    if xs == [] then h else PushAll(PushSample(h, xs[0]), xs[1..])
  }

  /** A sequence back to front. */
  function Reverse<T>(xs: seq<T>): (r: seq<T>)
    ensures |r| == |xs|
  {
    if xs == [] then [] else Reverse(xs[1..]) + [xs[0]]
  }

  /** Position `k` of the reversal holds the `k`-th element from the back. */
  lemma {:induction false} ReverseAt<T>(xs: seq<T>, k: nat)
    requires k < |xs|
    ensures Reverse(xs)[k] == xs[|xs| - 1 - k]
  {
    if k < |xs| - 1 {
      ReverseAt(xs[1..], k);
    }
  }

  /** After any run of insertions, the history holds the newest `SAMPLES` samples of
      everything seen, newest first: older samples are evicted first. */
  lemma {:induction false} PushAllKeepsNewest(h: seq<Sample>, xs: seq<Sample>)
    requires |h| <= SAMPLES
    ensures PushAll(h, xs) == (Reverse(xs) + h)[..Min(|xs| + |h|, SAMPLES)]
    decreases |xs|
  {
    if xs == [] {
    } else {
      var h1 := PushSample(h, xs[0]);
      var rest := xs[1..];
      PushAllKeepsNewest(h1, rest);
      var k := Min(|xs| + |h|, SAMPLES);
      assert Reverse(xs) == Reverse(rest) + [xs[0]];
      assert h1 == ([xs[0]] + h)[..|h1|];
      assert Min(|rest| + |h1|, SAMPLES) == k;
      var lhs := (Reverse(rest) + h1)[..k];
      var rhs := (Reverse(xs) + h)[..k];
      forall i | 0 <= i < k ensures lhs[i] == rhs[i] {
        if i < |rest| {
        } else {
          assert lhs[i] == h1[i - |rest|];
          assert rhs[i] == ([xs[0]] + h)[i - |rest|];
        }
      }
    }
  }

  /** Inserting 31 samples into an empty history keeps the last 30 and evicts the first. */
  lemma CapacityEvictsOldest(xs: seq<Sample>)
    requires |xs| == SAMPLES + 1
    ensures PushAll([], xs) == Reverse(xs[1..])
    ensures |PushAll([], xs)| == SAMPLES
    ensures PushAll([], xs)[0] == xs[SAMPLES] && PushAll([], xs)[SAMPLES - 1] == xs[1]
  {
    PushAllKeepsNewest([], xs);
    assert xs == [xs[0]] + xs[1..];
    assert Reverse(xs) == Reverse(xs[1..]) + [xs[0]];
    assert (Reverse(xs) + [])[..SAMPLES] == Reverse(xs[1..]);
    ReverseAt(xs[1..], 0);
    ReverseAt(xs[1..], SAMPLES - 1);
  }

  /** Entries are newest first: timestamps never increase towards the back. */
  predicate NewestFirst(h: seq<Sample>) {
    forall i, j :: 0 <= i < j < |h| ==> h[j].when <= h[i].when
  }

  /** With a clock that does not go back, every insertion keeps the history newest first. */
  lemma PushKeepsNewestFirst(h: seq<Sample>, s: Sample)
    requires NewestFirst(h)
    requires h != [] ==> h[0].when <= s.when
    ensures NewestFirst(PushSample(h, s))
  {
    var r := PushSample(h, s);
    forall i, j | 0 <= i < j < |r| ensures r[j].when <= r[i].when {
      assert r[j] == h[j - 1];
      if i > 0 {
        assert r[i] == h[i - 1];
      }
    }
  }

  /** How many entries, from the front, the window scan keeps before it meets the first one
      recorded strictly before `cutoff`. */
  function WindowLen(h: seq<Sample>, cutoff: int): (n: nat)
    ensures n <= |h|
    ensures forall i :: 0 <= i < n ==> h[i].when >= cutoff
    ensures n < |h| ==> h[n].when < cutoff
  {
    if h == [] || h[0].when < cutoff then 0 else 1 + WindowLen(h[1..], cutoff)
  }

  /** On a newest-first history the window is exactly the entries recorded at or after
      `cutoff`. */
  lemma WindowIsRecentEntries(h: seq<Sample>, cutoff: int, i: nat)
    requires NewestFirst(h) && i < |h|
    ensures i < WindowLen(h, cutoff) <==> h[i].when >= cutoff
  {
    var n := WindowLen(h, cutoff);
    if i >= n {
      assert h[i].when <= h[n].when;
    }
  }

  /** Sum of the round trips of the given entries. */
  function SumRtt(h: seq<Sample>): (r: nat) {
    if h == [] then 0 else SumRtt(h[..|h| - 1]) + h[|h| - 1].rtt
  }

  /** The scan loop of `collect`: walk the history from the newest entry, stop at the first
      entry older than `now - 30s`, and add up the round trips and the count. */
  method WindowScan(latencies: seq<Sample>, now: int) returns (latency: nat, count: nat)
    ensures count == WindowLen(latencies, now - WindowNanos)
    ensures latency == SumRtt(latencies[..count])
  {
    var cutoff := now - WindowNanos;
    latency, count := 0, 0;
    while count < |latencies|
      invariant count <= WindowLen(latencies, cutoff)
      invariant latency == SumRtt(latencies[..count])
    {
      var entry := latencies[count];
      if entry.when < cutoff {
        break;
      }
      assert latencies[..count + 1][..count] == latencies[..count];
      latency := latency + entry.rtt;
      count := count + 1;
    }
  }

  /** The averaged window, in seconds: emitted only when the window is not empty. */
  function AverageSeconds(latency: nat, count: nat): (avg: Option<real>)
    ensures avg.Some? <==> count > 0
    ensures avg.Some? ==> avg.value * (count as real) * 1_000_000_000.0 == latency as real
  {
    if count > 0 then Some(latency as real / count as real / 1_000_000_000.0) else None
  }

  /** What `collect` reports as the windowed latency of one history. */
  function WindowAverage(h: seq<Sample>, now: int): (avg: Option<real>)
    ensures avg.Some? <==> h != [] && h[0].when >= now - WindowNanos
    ensures avg.Some? ==>
              var n := WindowLen(h, now - WindowNanos);
              avg.value * (n as real) * 1_000_000_000.0 == SumRtt(h[..n]) as real
  {
    var n := WindowLen(h, now - WindowNanos);
    AverageSeconds(SumRtt(h[..n]), n)
  }

  /** The worked example: entries aged 0, 10, 29, 31 and 40 seconds; the first three are
      averaged, the last two are not. */
  lemma WindowExample(now: int, rtt: nat)
    ensures WindowLen([Sample(now, rtt), Sample(now - 10 * 1_000_000_000, rtt),
                       Sample(now - 29 * 1_000_000_000, rtt), Sample(now - 31 * 1_000_000_000, rtt),
                       Sample(now - 40 * 1_000_000_000, rtt)], now - WindowNanos) == 3
  {
    var h := [Sample(now, rtt), Sample(now - 10 * 1_000_000_000, rtt),
              Sample(now - 29 * 1_000_000_000, rtt), Sample(now - 31 * 1_000_000_000, rtt),
              Sample(now - 40 * 1_000_000_000, rtt)];
    var cutoff := now - WindowNanos;
    assert WindowLen(h[3..], cutoff) == 0;
    assert h[2..][1..] == h[3..];
    assert WindowLen(h[2..], cutoff) == 1;
    assert h[1..][1..] == h[2..];
    assert WindowLen(h[1..], cutoff) == 2;
  }

  /** After the wall clock steps back, an old entry in front hides a current one behind it:
      the scan stops at once. */
  lemma ClockStepBackHidesEntries(now: int, rtt: nat)
    ensures WindowLen([Sample(now - 40 * 1_000_000_000, rtt), Sample(now, rtt)], now - WindowNanos) == 0
  {
  }

  /** An entry recorded exactly 30 seconds ago is still in the window. */
  lemma CutoffEntryIncluded(h: seq<Sample>, now: int)
    requires h != [] && h[0].when == now - WindowNanos
    ensures WindowLen(h, now - WindowNanos) >= 1
  {
  }
}
