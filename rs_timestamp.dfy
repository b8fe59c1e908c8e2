/** The Rust probe payload (src/main.rs `current_time` / `get_delay`): wall-clock time
    since the Unix epoch as a 32-bit big-endian count of seconds followed by a 32-bit
    big-endian count of nanoseconds. Times are nanoseconds since the epoch; the clock
    reading is a parameter. */
module RsTimestamp {
  import opened Bytes
  import opened Outcomes

  const NanosPerSec: nat := 1_000_000_000

  /** The 8 bytes `current_time` writes for clock reading `now`. */
  function Encode(now: nat): (buf: seq<byte>)
    ensures |buf| == 8
    ensures FromBigEndian(buf[..4]) == (now / NanosPerSec) % U32
    ensures FromBigEndian(buf[4..]) == now % NanosPerSec
  {
    Pow256Values();
    var secs := ToBigEndian((now / NanosPerSec) % U32, 4);
    var nsecs := ToBigEndian(now % NanosPerSec, 4);
    FromToBigEndian((now / NanosPerSec) % U32, 4);
    FromToBigEndian(now % NanosPerSec, 4);
    assert (secs + nsecs)[..4] == secs && (secs + nsecs)[4..] == nsecs;
    secs + nsecs
  }

  /** `write_u32::<BigEndian>` on a cursor at `pos`: four bytes at `pos`, cursor moves on. */
  method WriteU32(buf: array<byte>, pos: nat, v: nat) returns (next: nat)
    requires pos + 4 <= buf.Length && v < U32
    modifies buf
    ensures next == pos + 4
    ensures buf[..] == old(buf[..pos]) + ToBigEndian(v, 4) + old(buf[pos + 4..])
  {
    BigEndian32(v);
    buf[pos] := (v / 0x100_0000) as byte;
    buf[pos + 1] := (v / 0x1_0000 % 256) as byte;
    buf[pos + 2] := (v / 256 % 256) as byte;
    buf[pos + 3] := (v % 256) as byte;
    next := pos + 4;
    assert buf[..] == old(buf[..pos]) + ToBigEndian(v, 4) + old(buf[pos + 4..]);
  }

  /** `current_time(&mut buf)` with the clock reading `now`. */
  method CurrentTime(buf: array<byte>, now: nat)
    requires buf.Length == 8
    modifies buf
    ensures buf[..] == Encode(now)
  {
    var cursor := 0;
    cursor := WriteU32(buf, cursor, (now / NanosPerSec) % U32);
    cursor := WriteU32(buf, cursor, now % NanosPerSec);
  }

  /** The instant, in nanoseconds since the epoch, that the payload stands for:
      `Duration::new(secs, nanos)`, where nanoseconds of a billion or more carry into
      the seconds. */
  function Decode(buf: seq<byte>): (sent: nat)
    requires |buf| == 8
    ensures sent / NanosPerSec == FromBigEndian(buf[..4]) + FromBigEndian(buf[4..]) / NanosPerSec
    ensures sent % NanosPerSec == FromBigEndian(buf[4..]) % NanosPerSec
  {
    var s := FromBigEndian(buf[..4]);
    var n := FromBigEndian(buf[4..]);
    SplitNanos(s, n % NanosPerSec);
    assert s * NanosPerSec + n == (s + n / NanosPerSec) * NanosPerSec + n % NanosPerSec;
    SplitNanos(s + n / NanosPerSec, n % NanosPerSec);
    s * NanosPerSec + n
  }

  /** `get_delay(&buf)` with the clock reading `now`: `now - then`, where subtracting a
      later `Duration` from an earlier one panics. */
  function GetDelay(now: nat, buf: seq<byte>): (d: Result<nat>)
    requires |buf| == 8
    ensures d.Ok? <==> Decode(buf) <= now
    ensures d.Ok? ==> Decode(buf) + d.value == now
  {
    var sent := Decode(buf);
    if sent > now then Err else Ok(now - sent)
  }

  /** Decoding an encoding gives the sent time back, with its seconds taken modulo 2^32. */
  lemma DecodeEncode(now: nat)
    ensures Decode(Encode(now)) == (now / NanosPerSec) % U32 * NanosPerSec + now % NanosPerSec
    ensures Decode(Encode(now)) <= now
    ensures now / NanosPerSec < U32 ==> Decode(Encode(now)) == now
  {
  }

  /** An instant of `s` seconds and `n < 10^9` nanoseconds splits back into `s` and `n`. */
  lemma SplitNanos(s: nat, n: nat)
    requires n < NanosPerSec
    ensures (s * NanosPerSec + n) / NanosPerSec == s
    ensures (s * NanosPerSec + n) % NanosPerSec == n
  {
  }

  /** A well-formed payload (nanoseconds below a billion) is the encoding of what it decodes to. */
  lemma EncodeDecode(buf: seq<byte>)
    requires |buf| == 8 && FromBigEndian(buf[4..]) < NanosPerSec
    ensures Encode(Decode(buf)) == buf
  {
    var s := FromBigEndian(buf[..4]);
    var n := FromBigEndian(buf[4..]);
    Pow256Values();
    SplitNanos(s, n);
    var t := Decode(buf);
    assert t / NanosPerSec % U32 == s && t % NanosPerSec == n;
    ToFromBigEndian(buf[..4]);
    ToFromBigEndian(buf[4..]);
    calc {
      Encode(t);
      ToBigEndian(s, 4) + ToBigEndian(n, 4);
      buf[..4] + buf[4..];
      buf;
    }
  }

  /** A probe stamped at `sent` and decoded at `now >= sent` yields the elapsed time
      `now - sent`, as long as the seconds fit in 32 bits (until the year 2106). */
  lemma RoundTripDelay(sent: nat, now: nat)
    requires sent <= now && sent / NanosPerSec < U32
    ensures GetDelay(now, Encode(sent)) == Ok(now - sent)
  {
    DecodeEncode(sent);
  }

  /** Decoding one's own stamp at a later reading never panics, even once the seconds wrap. */
  lemma OwnStampNeverPanics(sent: nat, now: nat)
    requires sent <= now
    ensures GetDelay(now, Encode(sent)).Ok?
    ensures GetDelay(now, Encode(sent)).value >= now - sent
  {
    DecodeEncode(sent);
  }

  /** A stamp from a clock ahead of the receiver's makes `get_delay` panic. */
  lemma FutureStampPanics(sent: nat, now: nat)
    requires now < sent && sent / NanosPerSec < U32
    ensures GetDelay(now, Encode(sent)) == Err
  {
    DecodeEncode(sent);
  }
}
