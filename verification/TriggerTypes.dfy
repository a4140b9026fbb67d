/** Trigger primitives, and the unsigned arithmetic that the makers do on their fields. */
module TriggerTypes {

  const TWO_16: int := 0x1_0000
  const TWO_32: int := 0x1_0000_0000
  const TWO_64: int := 0x1_0000_0000_0000_0000

  /** A timestamp: an unsigned 64-bit count of clock ticks. */
  type Timestamp = t: int | 0 <= t < 0x1_0000_0000_0000_0000

  /** A channel number, in the range where its signed and unsigned readings agree. */
  type Channel = c: int | 0 <= c < 0x8000_0000

  datatype TriggerPrimitive = TriggerPrimitive(
    timeStart: Timestamp,
    timeOverThreshold: nat,
    channel: Channel,
    adcIntegral: nat)

  type TPs = seq<TriggerPrimitive>

  /** A trigger activity: the times and channels that its inputs span, and their ADC sum. */
  datatype TriggerActivity = TriggerActivity(
    timeStart: Timestamp,
    timeEnd: nat,
    channelStart: Channel,
    channelEnd: Channel,
    adcIntegral: nat,
    inputs: TPs)

  /** The difference of two timestamps, which wraps around. */
  function Ticks(a: Timestamp, b: Timestamp): Timestamp {
    (a - b) % TWO_64
  }

  /** Unsigned 32-bit arithmetic keeps the low 32 bits. */
  function Wrap32(x: int): nat {
    x % TWO_32
  }

  /** Unsigned 64-bit arithmetic keeps the low 64 bits. */
  function Wrap64(x: int): nat {
    x % TWO_64
  }

  /** What is a multiple of 2^32 away from an unsigned 32-bit number wraps around to that number. */
  lemma Wrap32Means(x: int, q: int)
    requires 0 <= x < 0x1_0000_0000
    ensures Wrap32(x + q * 0x1_0000_0000) == x
  {
    WrapMultiple(x, q);
  }

  lemma Wrap64Means(x: int, q: int)
    requires 0 <= x < 0x1_0000_0000_0000_0000
    ensures Wrap64(x + q * 0x1_0000_0000_0000_0000) == x
  {
    var y := x + q * 0x1_0000_0000_0000_0000;
    assert y == (y / TWO_64) * TWO_64 + Wrap64(y);
  }

  lemma Wrap64Add(x: int, y: int)
    ensures Wrap64(Wrap64(x) + y) == Wrap64(x + y)
  {
    var q := x / TWO_64;
    var d := (Wrap64(x) + y) / TWO_64;
    assert x == q * TWO_64 + Wrap64(x);
    assert x + y == (q + d) * TWO_64 + Wrap64(Wrap64(x) + y);
  }

  lemma Wrap32Add(x: int, y: int)
    ensures Wrap32(Wrap32(x) + y) == Wrap32(x + y)
  {
    var q := x / TWO_32;
    assert x == q * TWO_32 + Wrap32(x);
    assert x + y == q * TWO_32 + (Wrap32(x) + y);
    WrapMultiple(Wrap32(x) + y, q);
  }

  lemma WrapMultiple(x: int, q: int)
    ensures (q * TWO_32 + x) % TWO_32 == x % TWO_32
  {
    var d := x / TWO_32;
    assert q * TWO_32 + x == (q + d) * TWO_32 + x % TWO_32;
  }

  lemma TicksInOrder(a: Timestamp, b: Timestamp)
    ensures b <= a ==> Ticks(a, b) == a - b
    ensures a < b ==> Ticks(a, b) == 0x1_0000_0000_0000_0000 + a - b
  {
    if a < b {
      assert (a - b) + TWO_64 == Ticks(a, b);
    }
  }

  function AdcSum(tps: TPs): nat {
    if tps == [] then 0 else AdcSum(tps[..|tps| - 1]) + tps[|tps| - 1].adcIntegral
  }
}
