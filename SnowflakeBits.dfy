/**
 * The bit layout of a snowflake id (SnowflakeHelper.cs): from the most significant end,
 * one sign bit that stays 0, a 41-bit millisecond offset from `InitialTimestamp`,
 * a 5-bit center id, a 5-bit worker id and a 12-bit per-millisecond sequence.
 *
 * Ids are C# `long`s. The model computes on `int` and writes the 64-bit wrap-around
 * out with `Wrap64`. Three facts about the C# operators are used throughout:
 *  - `x << k` on a `long` is `Wrap64(x * 2^k)`;
 *  - `x >> k` on a `long` is an arithmetic shift, that is `x / 2^k` rounded down, which
 *    is Dafny's `/` for a positive divisor;
 *  - `x & (2^k - 1)` on a `long` is `x % 2^k` with Dafny's non-negative remainder.
 * Since the fields occupy disjoint bits and the shifted time has 22 zero low bits,
 * the `|` of the fields equals their sum.
 */
module SnowflakeBits {
  import opened Machine

  /** Unix milliseconds of 2021-01-01 00:00:00 at UTC+8, that is 2020-12-31T16:00:00Z. */
  const InitialTimestamp: int := 1609430400000

  const CenterIdBits: nat := 5
  const WorkerIdBits: nat := 5
  const SequenceBits: nat := 12

  /** `-1L ^ (-1L << 5)` */
  const MaxCenterId: int := 31
  /** `-1L ^ (-1L << 5)` */
  const MaxWorkerId: int := 31
  /** `-1L ^ (-1L << 12)` */
  const SequenceMask: int := 4095

  const CenterIdShift: nat := 17     // SequenceBits + WorkerIdBits
  const WorkerIdShift: nat := 12     // SequenceBits
  const TimestampLeftShift: nat := 22  // SequenceBits + WorkerIdBits + CenterIdBits

  /** 2^TimestampLeftShift, 2^CenterIdShift, 2^WorkerIdShift */
  const TimeUnit: int := 0x40_0000
  const CenterUnit: int := 0x2_0000
  const WorkerUnit: int := 0x1000

  /** 2^41: the time offsets that fit the 41 bits of the layout are [0, TimeLimit). */
  const TimeLimit: int := 0x200_0000_0000

  /** Unix-millisecond range of .NET `DateTimeOffset` (0001-01-01 to 9999-12-31). */
  const MinUnixMs: int := -62135596800000
  const MaxUnixMs: int := 253402300799999

  type UnixMs = x: int | MinUnixMs <= x <= MaxUnixMs

  predicate ValidCenterId(x: int) { 0 <= x <= MaxCenterId }
  predicate ValidWorkerId(x: int) { 0 <= x <= MaxWorkerId }
  predicate ValidSequence(x: int) { 0 <= x <= SequenceMask }

  /** A time offset that the 41-bit field holds without wrapping into the sign bit. */
  predicate OffsetInRange(offset: int) { 0 <= offset < TimeLimit }

  /** `(x + 1) & _sequenceMask` */
  function NextSequence(x: int): (r: int)
    ensures ValidSequence(r)
    ensures ValidSequence(x) ==> (r == 0 <==> x == SequenceMask)
    ensures ValidSequence(x) && x < SequenceMask ==> r == x + 1
  {
    (x + 1) % (SequenceMask + 1)
  }

  /**
   * The decoded form of an id, the `Flake` record. Its `DateTime` is kept as the
   * Unix-millisecond instant `timestamp`; the conversion to local calendar time is not modelled.
   */
  datatype Flake = Flake(id: int, centerId: int, workerId: int, timestamp: int, sequence: int)

  lemma AlignedWrap(q: int)
    ensures Wrap64(q * TimeUnit) % TimeUnit == 0
  {
    var x := q * TimeUnit;
    var m := (x + TwoTo63) % TwoTo64;
    var k := (x + TwoTo63) / TwoTo64;
    assert x + TwoTo63 == TwoTo64 * k + m;
    assert m - TwoTo63 == TimeUnit * (q - 0x400_0000_0000 * k);
    MultipleMod(q - 0x400_0000_0000 * k);
  }

  lemma MultipleMod(z: int)
    ensures (TimeUnit * z) % TimeUnit == 0
  {
  }

  /**
   * `(offset << 22) | (centerId << 17) | (workerId << 12) | sequence` on C# longs,
   * where `offset` is the `long` difference `timestamp - _initialTimestamp`.
   */
  function Compose(offset: int, centerId: int, workerId: int, sequence: int): (id: Int64)
    requires ValidCenterId(centerId) && ValidWorkerId(workerId) && ValidSequence(sequence)
  {
    AlignedWrap(Wrap64(offset));
    Wrap64(Wrap64(offset) * TimeUnit) + centerId * CenterUnit + workerId * WorkerUnit + sequence
  }

  /** `id >> _timestampLeftShift` */
  function TimeOffset(id: Int64): int {
    id / TimeUnit
  }

  /**
   * `SnowflakeHelper.Analyze`: the center id is `(id ^ (timestamp << 22)) >> 17`, which keeps
   * bits 21..17; the worker id is `(id ^ ((timestamp << 22) | (centerId << 17))) >> 12`,
   * which keeps bits 16..12; the sequence is `id & _sequenceMask`. The instant is
   * `timestamp + _initialTimestamp`, which `DateTimeOffset.FromUnixTimeMilliseconds` accepts
   * for every `long` id (lemma AnalyzeInstantRepresentable).
   */
  function Analyze(id: Int64): (f: Flake)
    ensures f.id == id
  {
    Flake(id, (id % TimeUnit) / CenterUnit, (id % CenterUnit) / WorkerUnit,
          TimeOffset(id) + InitialTimestamp, id % WorkerUnit)
  }

  /**
   * The XOR-and-shift steps of `Analyze` on 64 bits keep exactly bits 21..17 and 16..12.
   * This is a fact about 64-bit words on its own: the `int` definition of `Analyze` above is
   * stated with `%` and `/` and is not derived from it. The shifts here are logical, the
   * source's `>>` on `long` is arithmetic; the two agree at every step, because the bits an
   * arithmetic shift fills in at the top are shifted out again by `<< 22`, and the XOR clears
   * every bit above bit 21 before the shifts by 17 and 12.
   */
  lemma AnalyzeXorSteps(x: bv64)
    ensures (x ^ ((x >> 22) << 22)) >> 17 == (x & 0x3F_FFFF) >> 17
    ensures (x ^ (((x >> 22) << 22) | (((x ^ ((x >> 22) << 22)) >> 17) << 17))) >> 12
            == (x & 0x1_FFFF) >> 12
    ensures x & 0xFFF == x & 0x1_FFFF & 0xFFF
  {
  }

  /** Decoding any `long` never produces an instant `DateTimeOffset` rejects. */
  lemma AnalyzeInstantRepresentable(id: Int64)
    ensures MinUnixMs <= Analyze(id).timestamp <= MaxUnixMs
  {
    AnalyzeFieldsInRange(id);
  }

  /** Division facts for a value split at a power of two. */
  lemma SplitAt(a: int, unit: int, q: int, r: int)
    requires unit > 0 && a == q * unit + r && 0 <= r < unit
    ensures a / unit == q && a % unit == r
  {
    var q', r' := a / unit, a % unit;
    assert a == q' * unit + r';
    if q' > q {
      MulMonotone(q + 1, q', unit);
      assert false;
    } else if q' < q {
      MulMonotone(q' + 1, q, unit);
      assert false;
    }
  }

  lemma MulMonotone(x: int, y: int, u: int)
    requires x <= y && u > 0
    ensures x * u <= y * u
  {
  }

  /** Every field `Analyze` returns lies within its bit width. */
  lemma AnalyzeFieldsInRange(id: Int64)
    ensures ValidCenterId(Analyze(id).centerId)
    ensures ValidWorkerId(Analyze(id).workerId)
    ensures ValidSequence(Analyze(id).sequence)
    ensures -TimeLimit <= TimeOffset(id) < TimeLimit
  {
    var t := TimeOffset(id);
    assert id == t * TimeUnit + id % TimeUnit;
    assert (-TimeLimit - 1) * TimeUnit == -TwoTo63 - TimeUnit;
    assert TimeLimit * TimeUnit == TwoTo63;
    if t < -TimeLimit {
      MulMonotone(t, -TimeLimit - 1, TimeUnit);
    } else if t >= TimeLimit {
      MulMonotone(TimeLimit, t, TimeUnit);
    }
  }

  /** Encoding then decoding gives back the four fields, for every offset the 42 signed bits hold. */
  lemma AnalyzeCompose(offset: int, centerId: int, workerId: int, sequence: int)
    requires ValidCenterId(centerId) && ValidWorkerId(workerId) && ValidSequence(sequence)
    requires -TimeLimit <= offset < TimeLimit
    ensures var f := Analyze(Compose(offset, centerId, workerId, sequence));
      && f.centerId == centerId && f.workerId == workerId && f.sequence == sequence
      && TimeOffset(f.id) == offset && f.timestamp == offset + InitialTimestamp
  {
    var id := Compose(offset, centerId, workerId, sequence);
    var low := centerId * CenterUnit + workerId * WorkerUnit + sequence;
    assert id == offset * TimeUnit + low;
    SplitAt(id, TimeUnit, offset, low);
    SplitAt(low, CenterUnit, centerId, workerId * WorkerUnit + sequence);
    SplitAt(id, CenterUnit, offset * 32 + centerId, workerId * WorkerUnit + sequence);
    SplitAt(workerId * WorkerUnit + sequence, WorkerUnit, workerId, sequence);
    SplitAt(id, WorkerUnit, offset * 1024 + centerId * 32 + workerId, sequence);
  }

  /** Decoding then encoding gives back every `long`: the layout loses no bit. */
  lemma ComposeAnalyze(id: Int64)
    ensures var f := Analyze(id);
      && ValidCenterId(f.centerId) && ValidWorkerId(f.workerId) && ValidSequence(f.sequence)
      && Compose(f.timestamp - InitialTimestamp, f.centerId, f.workerId, f.sequence) == id
  {
    var f := Analyze(id);
    AnalyzeFieldsInRange(id);
    var t := id / TimeUnit;
    var r := id % TimeUnit;
    assert id == t * TimeUnit + r;
    assert r == f.centerId * CenterUnit + r % CenterUnit;
    assert r % CenterUnit == id % CenterUnit by {
      SplitAt(id, CenterUnit, t * 32 + f.centerId, r % CenterUnit);
    }
    assert id % CenterUnit == f.workerId * WorkerUnit + id % CenterUnit % WorkerUnit;
    assert id % CenterUnit % WorkerUnit == id % WorkerUnit by {
      SplitAt(id, WorkerUnit, (t * 32 + f.centerId) * 32 + f.workerId, id % CenterUnit % WorkerUnit);
    }
  }

  /** An id whose time offset fits the 41 bits is non-negative: the sign bit stays 0. */
  lemma ComposeNonNegative(offset: int, centerId: int, workerId: int, sequence: int)
    requires ValidCenterId(centerId) && ValidWorkerId(workerId) && ValidSequence(sequence)
    requires OffsetInRange(offset)
    ensures 0 <= Compose(offset, centerId, workerId, sequence)
    ensures Compose(offset, centerId, workerId, sequence)
            == offset * TimeUnit + centerId * CenterUnit + workerId * WorkerUnit + sequence
  {
  }

  /**
   * For a fixed node, ids are ordered as (time offset, sequence) pairs are ordered
   * lexicographically, as long as the offsets fit the 41 bits.
   */
  lemma ComposeOrdered(o1: int, s1: int, o2: int, s2: int, centerId: int, workerId: int)
    requires ValidCenterId(centerId) && ValidWorkerId(workerId)
    requires ValidSequence(s1) && ValidSequence(s2)
    requires OffsetInRange(o1) && OffsetInRange(o2)
    ensures o1 < o2 || (o1 == o2 && s1 < s2)
            <==> Compose(o1, centerId, workerId, s1) < Compose(o2, centerId, workerId, s2)
  {
    ComposeNonNegative(o1, centerId, workerId, s1);
    ComposeNonNegative(o2, centerId, workerId, s2);
  }
}
