/** The Python probe payload (prometheus_ping.py `current_time` / `get_delay`): the
    `perf_counter_ns()` reading packed as one big-endian unsigned 64-bit integer. The
    counter reading is a parameter. */
module PyTimestamp {
  import opened Bytes
  import opened Outcomes

  /** `struct.pack('>Q', counter)`: exactly 8 bytes, or `struct.error` outside 0 .. 2^64 - 1. */
  function CurrentTime(counter: int): (r: Result<seq<byte>>)
    ensures r.Ok? <==> 0 <= counter < U64
    ensures r.Ok? ==> |r.value| == 8 && FromBigEndian(r.value) == counter
  {
    Pow256Values();
    if 0 <= counter < U64 then
      FromToBigEndian(counter, 8);
      Ok(ToBigEndian(counter, 8))
    else Err
  }

  /** `get_delay(buf)` at counter reading `now`: `struct.unpack('>Q', buf)` raises unless
      the buffer is exactly 8 bytes; the delay is an unbounded, possibly negative, int. */
  function GetDelay(now: int, buf: seq<byte>): (r: Result<int>)
    ensures r.Ok? <==> |buf| == 8
    ensures r.Ok? ==> FromBigEndian(buf) + r.value == now
  {
    if |buf| != 8 then Err else Ok(now - FromBigEndian(buf))
  }

  /** A probe packed at `sent` and unpacked at `now` yields `now - sent`. */
  lemma RoundTrip(sent: int, now: int)
    requires 0 <= sent < U64
    ensures CurrentTime(sent).Ok?
    ensures GetDelay(now, CurrentTime(sent).value) == Ok(now - sent)
  {
  }

  /** Every 8-byte buffer is the packing of the value it unpacks to. */
  lemma PackUnpack(buf: seq<byte>)
    requires |buf| == 8
    ensures CurrentTime(FromBigEndian(buf)) == Ok(buf)
  {
    Pow256Values();
    ToFromBigEndian(buf);
  }
}
