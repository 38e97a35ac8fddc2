/** Size estimate of an MQTT 3.1.1 PUBLISH header (`mqtt_publish_header_len`).

    The fixed header is one control byte followed by the Remaining Length, a
    base-128 integer taking one byte per seven bits (section 2.2.3 of MQTT
    Version 3.1.1); the variable header is the two-byte topic length, the topic
    and, when QoS > 0, the two-byte Packet Identifier (section 3.3.2). Two
    deviations of the estimator from the standard are kept as written: the
    Remaining Length is not capped at four bytes, and the topic is measured in
    characters rather than UTF-8 bytes. */
module HeaderEstimate {

  /** The number of base-128 digits of `n` (at least one, for zero). */
  function VarIntWidth(n: nat): (w: nat)
    ensures w >= 1
  {
    if n <= 127 then 1 else 1 + VarIntWidth(n / 128)
  }

  function Pow128(k: nat): (p: nat)
    ensures p >= 1
  {
    if k == 0 then 1 else 128 * Pow128(k - 1)
  }

  /** Two bytes of topic length, the topic characters, and a Packet Identifier for QoS > 0. */
  function VariableHeaderLen(topic: string, qos: int): nat
  {
    2 + |topic| + (if qos > 0 then 2 else 0)
  }

  /** The value carried in the Remaining Length field: variable header plus payload. */
  function RemainingLength(topic: string, qos: int, payloadLen: nat): nat
  {
    VariableHeaderLen(topic, qos) + payloadLen
  }

  /** The estimate: control byte, Remaining Length field, variable header. */
  function PublishHeaderLen(topic: string, qos: int, payloadLen: nat): (r: nat)
    ensures r >= VariableHeaderLen(topic, qos) + 2
    ensures RemainingLength(topic, qos, payloadLen) <= 127 ==> r == VariableHeaderLen(topic, qos) + 2
  {
    1 + VarIntWidth(RemainingLength(topic, qos, payloadLen)) + VariableHeaderLen(topic, qos)
  }

  /** The estimator as the script computes it, counting digits in a loop. */
  method ComputePublishHeaderLen(topic: string, qos: int, payloadLen: nat) returns (r: nat)
    ensures r == PublishHeaderLen(topic, qos, payloadLen)
  {
    var variable := 2 + |topic| + (if qos > 0 then 2 else 0);
    var remaining := variable + payloadLen;
    var v: nat := remaining;
    var varbytes := 1;
    while v > 127
      invariant varbytes >= 1
      invariant varbytes - 1 + VarIntWidth(v) == VarIntWidth(remaining)
      decreases v
    {
      v := v / 128;
      varbytes := varbytes + 1;
    }
    var fixed := 1 + varbytes;
    r := fixed + variable;
  }

  /** `VarIntWidth(n)` is the number of base-128 digits: `n` lies below
      `128^w` and, when it takes more than one digit, at or above `128^(w-1)`. */
  lemma {:induction false} VarIntWidthBounds(n: nat)
    ensures n < Pow128(VarIntWidth(n))
    ensures VarIntWidth(n) > 1 ==> Pow128(VarIntWidth(n) - 1) <= n
  {
    if n > 127 {
      VarIntWidthBounds(n / 128);
    }
  }

  /** Conversely, a value within those bounds for `k` takes exactly `k` digits. */
  lemma {:induction false} VarIntWidthExact(n: nat, k: nat)
    requires k >= 1 && n < Pow128(k)
    requires k > 1 ==> Pow128(k - 1) <= n
    ensures VarIntWidth(n) == k
  {
    if k > 1 {
      assert n > 127 by {
        if k > 2 { Pow128Grows(k - 2); }
      }
      VarIntWidthExact(n / 128, k - 1);
    } else {
      assert n <= 127;
    }
  }

  lemma {:induction false} Pow128Grows(k: nat)
    ensures Pow128(k + 1) >= 128
  {
    if k > 0 { Pow128Grows(k - 1); }
  }

  /** The concrete boundaries: 1 byte up to 127, 2 up to 16383, 3 up to
      2097151, 4 up to 268435455 and 5 up to 34359738367; with no cap at
      four bytes, larger values take more. */
  lemma VarIntWidthRanges(n: nat)
    ensures n <= 127 ==> VarIntWidth(n) == 1
    ensures 128 <= n <= 16383 ==> VarIntWidth(n) == 2
    ensures 16384 <= n <= 2097151 ==> VarIntWidth(n) == 3
    ensures 2097152 <= n <= 268435455 ==> VarIntWidth(n) == 4
    ensures 268435456 <= n <= 34359738367 ==> VarIntWidth(n) == 5
  {
    assert Pow128(1) == 128;
    assert Pow128(2) == 16384;
    assert Pow128(3) == 2097152;
    assert Pow128(4) == 268435456;
    assert Pow128(5) == 34359738368;
    if n <= 127 { VarIntWidthExact(n, 1); }
    else if n <= 16383 { VarIntWidthExact(n, 2); }
    else if n <= 2097151 { VarIntWidthExact(n, 3); }
    else if n <= 268435455 { VarIntWidthExact(n, 4); }
    else if n <= 34359738367 { VarIntWidthExact(n, 5); }
  }

  /** Crossing a power of 128 adds exactly one byte. */
  lemma PowerCrossing(k: nat)
    requires k >= 1
    ensures VarIntWidth(Pow128(k)) == k + 1
    ensures VarIntWidth(Pow128(k) - 1) == k
  {
    Pow128Grows(k - 1);
    VarIntWidthExact(Pow128(k), k + 1);
    VarIntWidthExact(Pow128(k) - 1, k);
  }

  /** More to encode never takes fewer bytes. */
  lemma {:induction false} VarIntWidthMonotone(a: nat, b: nat)
    requires a <= b
    ensures VarIntWidth(a) <= VarIntWidth(b)
  {
    if a > 127 {
      VarIntWidthMonotone(a / 128, b / 128);
    }
  }

  /** The estimate does not decrease with the payload length. */
  lemma EstimateMonotoneInPayload(topic: string, qos: int, p1: nat, p2: nat)
    requires p1 <= p2
    ensures PublishHeaderLen(topic, qos, p1) <= PublishHeaderLen(topic, qos, p2)
  {
    VarIntWidthMonotone(RemainingLength(topic, qos, p1), RemainingLength(topic, qos, p2));
  }

  /** The estimate does not decrease with the topic length, and each extra
      topic character costs at least one byte. */
  lemma EstimateMonotoneInTopic(t1: string, t2: string, qos: int, payloadLen: nat)
    requires |t1| <= |t2|
    ensures PublishHeaderLen(t1, qos, payloadLen) + (|t2| - |t1|) <= PublishHeaderLen(t2, qos, payloadLen)
  {
    VarIntWidthMonotone(RemainingLength(t1, qos, payloadLen), RemainingLength(t2, qos, payloadLen));
  }

  /** A QoS 1 or 2 message costs at least the two bytes of its Packet Identifier
      more than the same message at QoS 0, and at most three. */
  lemma EstimateQosGap(topic: string, qos: int, payloadLen: nat)
    requires qos > 0
    ensures PublishHeaderLen(topic, 0, payloadLen) + 2 <= PublishHeaderLen(topic, qos, payloadLen)
    ensures PublishHeaderLen(topic, qos, payloadLen) <= PublishHeaderLen(topic, 0, payloadLen) + 3
  {
    var r0 := RemainingLength(topic, 0, payloadLen);
    VarIntWidthMonotone(r0, r0 + 2);
    VarIntWidthStep(r0 + 2);
  }

  /** Adding two to the encoded value adds at most one byte. */
  lemma {:induction false} VarIntWidthStep(n: nat)
    requires n >= 2
    ensures VarIntWidth(n) <= VarIntWidth(n - 2) + 1
  {
    if n - 2 > 127 {
      VarIntWidthMonotone(n / 128, (n - 2) / 128 + 1);
      VarIntWidthSucc((n - 2) / 128);
    }
  }

  /** Adding one to the encoded value adds at most one byte. */
  lemma {:induction false} VarIntWidthSucc(n: nat)
    ensures VarIntWidth(n + 1) <= VarIntWidth(n) + 1
  {
    if n > 127 {
      VarIntWidthMonotone((n + 1) / 128, n / 128 + 1);
      VarIntWidthSucc(n / 128);
    }
  }
}
