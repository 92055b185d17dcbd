/**
 * The snowflake id generator `SnowflakeHelper`: a validated (center id, worker id) pair
 * and two mutable fields, the per-millisecond sequence and the timestamp of the last id.
 *
 * The clock is a parameter: `Next(now, ticks)` receives the reading `DateTimeOffset.Now`
 * gives at the start of the call and the readings the spin loop `GetNextTimestamp` would
 * see in turn. The lock around `Next` is not modelled; the generator is sequential.
 */
module Snowflake {
  import opened Wrappers
  import opened Machine
  import opened SnowflakeBits

  /** `SnowflakeSettings`: both ids are documented as lying in [0, 31]. */
  datatype SnowflakeSettings = SnowflakeSettings(centerId: Int32, workerId: Int32)

  /**
   * The one exception the generator throws, `ArgumentOutOfRangeException`: from the
   * constructor for out-of-range settings, and from `DateTimeOffset.FromUnixTimeMilliseconds`
   * inside `Next` for an instant outside the range `DateTimeOffset` represents.
   */
  datatype Thrown = ArgumentOutOfRange

  predicate SettingsInRange(settings: SnowflakeSettings) {
    ValidCenterId(settings.centerId) && ValidWorkerId(settings.workerId)
  }

  /** The mutable fields `_sequence` and `_lastSequenceTimestamp`. */
  datatype GenState = GenState(sequence: int, lastTimestamp: int)

  /** A clock reading followed, at least once, by a reading later than `last`. */
  predicate ClockAdvances(ticks: seq<UnixMs>, last: int) {
    exists k :: 0 <= k < |ticks| && ticks[k] > last
  }

  /** What `GetNextTimestamp(last)` returns when the clock gives `ticks` in turn. */
  function FirstAfter(ticks: seq<UnixMs>, last: int): (r: UnixMs)
    requires ClockAdvances(ticks, last)
    ensures r > last
    ensures exists k :: 0 <= k < |ticks| && ticks[k] == r && forall j :: 0 <= j < k ==> ticks[j] <= last
  {
    if ticks[0] > last then ticks[0]
    else
      assert ClockAdvances(ticks[1..], last) by {
        var k :| 0 <= k < |ticks| && ticks[k] > last;
        assert ticks[1..][k - 1] == ticks[k];
      }
      var r := FirstAfter(ticks[1..], last);
      ghost var k :| 0 <= k < |ticks[1..]| && ticks[1..][k] == r
        && forall j :: 0 <= j < k ==> ticks[1..][j] <= last;
      assert ticks[k + 1] == r && forall j :: 0 <= j < k + 1 ==> ticks[j] <= last;
      r
  }

  /** The one case of `Next` that spins: the same millisecond with the sequence exhausted. */
  predicate SpinNeeded(s: GenState, now: int) {
    now == s.lastTimestamp && NextSequence(s.sequence) == 0
  }

  /** What `Next` demands of the clock: in the spinning case the clock eventually moves on. */
  predicate CanStep(s: GenState, now: UnixMs, ticks: seq<UnixMs>) {
    SpinNeeded(s, now) ==> ClockAdvances(ticks, s.lastTimestamp)
  }

  /** The state after `Next`, by the three-way comparison of the clock with the last timestamp. */
  function Step(s: GenState, now: UnixMs, ticks: seq<UnixMs>): GenState
    requires CanStep(s, now, ticks)
  {
    if now > s.lastTimestamp then
      GenState(0, now)
    else if now == s.lastTimestamp then
      var sequence := NextSequence(s.sequence);
      if sequence == 0 then GenState(sequence, FirstAfter(ticks, s.lastTimestamp))
      else GenState(sequence, now)
    else
      var sequence := NextSequence(s.sequence);
      if sequence > 0 then GenState(sequence, s.lastTimestamp)
      else GenState(sequence, s.lastTimestamp + 1)
  }

  /** The flake `Next` returns once the new state is in place. */
  function FlakeOf(centerId: int, workerId: int, s: GenState): (f: Flake)
    requires ValidCenterId(centerId) && ValidWorkerId(workerId) && ValidSequence(s.sequence)
  {
    Flake(Compose(s.lastTimestamp - InitialTimestamp, centerId, workerId, s.sequence),
          centerId, workerId, s.lastTimestamp, s.sequence)
  }

  /**
   * What `Next` returns once the new state is in place: the flake, or the exception
   * `FromUnixTimeMilliseconds` throws when the settled timestamp is not a `DateTimeOffset`
   * instant. The new state is stored before the flake is built, so it stays either way.
   */
  function NextResult(centerId: int, workerId: int, s: GenState): (r: Result<Flake, Thrown>)
    requires ValidCenterId(centerId) && ValidWorkerId(workerId) && ValidSequence(s.sequence)
    ensures r.Failure? <==> !(MinUnixMs <= s.lastTimestamp <= MaxUnixMs)
    ensures r.Success? ==> r.value == FlakeOf(centerId, workerId, s)
  {
    if MinUnixMs <= s.lastTimestamp <= MaxUnixMs then Success(FlakeOf(centerId, workerId, s))
    else Failure(ArgumentOutOfRange)
  }

  /**
   * `Next` throws exactly when the clock is behind a last timestamp at the end of the
   * `DateTimeOffset` range and the step settles past it: a last timestamp beyond the maximum
   * (left only by an earlier step past it, see `FixStaysInRange`), or the maximum itself with
   * the sequence exhausted.
   * The settled timestamp is never below the minimum.
   */
  lemma StepInstantInRange(s: GenState, now: UnixMs, ticks: seq<UnixMs>)
    requires ValidSequence(s.sequence) && CanStep(s, now, ticks)
    ensures var t := Step(s, now, ticks);
      && MinUnixMs <= t.lastTimestamp
      && (t.lastTimestamp > MaxUnixMs <==>
            now < s.lastTimestamp
            && (s.lastTimestamp > MaxUnixMs || (s.lastTimestamp == MaxUnixMs && NextSequence(s.sequence) == 0)))
  {
    if now == s.lastTimestamp && SpinNeeded(s, now) {
      assert Step(s, now, ticks).lastTimestamp == FirstAfter(ticks, s.lastTimestamp);
    }
  }

  /**
   * The clock behind a last timestamp at the `DateTimeOffset` maximum with the sequence at
   * 4095: the sequence wraps to 0, the timestamp moves past the maximum, and `Next` throws.
   */
  lemma EndOfRangeScenario(centerId: int, workerId: int, now: UnixMs)
    requires ValidCenterId(centerId) && ValidWorkerId(workerId) && now < MaxUnixMs
    ensures var t := Step(GenState(SequenceMask, MaxUnixMs), now, []);
      && t == GenState(0, MaxUnixMs + 1)
      && NextResult(centerId, workerId, t) == Failure(ArgumentOutOfRange)
  {
  }

  /** The state after `FixLastTimestamp(id)`. */
  function Fix(s: GenState, id: Int64): (r: GenState)
    ensures r.sequence == s.sequence
    ensures Analyze(id).timestamp < r.lastTimestamp
  {
    GenState(s.sequence, TimeOffset(id) + InitialTimestamp + 1)
  }

  /** `FixLastTimestamp` never sets a last timestamp outside the `DateTimeOffset` range. */
  lemma FixStaysInRange(s: GenState, id: Int64)
    ensures MinUnixMs <= Fix(s, id).lastTimestamp <= MaxUnixMs
  {
    AnalyzeFieldsInRange(id);
  }

  /** `(ts, sequence)` pairs grow strictly in lexicographic order. */
  predicate Later(after: GenState, before: GenState) {
    after.lastTimestamp > before.lastTimestamp
    || (after.lastTimestamp == before.lastTimestamp && after.sequence > before.sequence)
  }

  /**
   * What one call of `Next` does to the state, whatever the clock says: the sequence stays
   * within its 12 bits, the (timestamp, sequence) pair grows strictly, the new timestamp is
   * never before the clock reading, a clock that moved forward is taken as it is, a new
   * millisecond restarts the sequence, and staying in a millisecond increments it.
   */
  lemma StepProperties(s: GenState, now: UnixMs, ticks: seq<UnixMs>)
    requires ValidSequence(s.sequence) && CanStep(s, now, ticks)
    ensures var r := Step(s, now, ticks);
      && ValidSequence(r.sequence)
      && Later(r, s)
      && r.lastTimestamp >= now
      && (now > s.lastTimestamp ==> r == GenState(0, now))
      && (r.lastTimestamp > s.lastTimestamp ==> r.sequence == 0)
      && (r.lastTimestamp == s.lastTimestamp ==> r.sequence == s.sequence + 1)
  {
  }

  /**
   * The three branches of `Next`: a clock behind the last timestamp either stays on it with
   * the next sequence or, once the sequence is exhausted, moves one millisecond past it; a
   * clock on the last timestamp with the sequence exhausted waits for the first later reading.
   */
  lemma StepBranches(s: GenState, now: UnixMs, ticks: seq<UnixMs>)
    requires ValidSequence(s.sequence) && CanStep(s, now, ticks)
    ensures var r := Step(s, now, ticks);
      && (now < s.lastTimestamp && s.sequence < SequenceMask ==> r == GenState(s.sequence + 1, s.lastTimestamp))
      && (now < s.lastTimestamp && s.sequence == SequenceMask ==> r == GenState(0, s.lastTimestamp + 1))
      && (now == s.lastTimestamp && s.sequence < SequenceMask ==> r == GenState(s.sequence + 1, now))
      && (now == s.lastTimestamp && s.sequence == SequenceMask ==>
            r == GenState(0, FirstAfter(ticks, s.lastTimestamp)) && r.lastTimestamp > now)
  {
  }

  /** The id of the last state, which `Next` returned. */
  function IdOf(centerId: int, workerId: int, s: GenState): Int64
    requires ValidCenterId(centerId) && ValidWorkerId(workerId) && ValidSequence(s.sequence)
  {
    Compose(s.lastTimestamp - InitialTimestamp, centerId, workerId, s.sequence)
  }

  predicate TimeInRange(s: GenState) {
    OffsetInRange(s.lastTimestamp - InitialTimestamp)
  }

  /** One call of `Next` returns a larger id than the previous call, while times fit 41 bits. */
  lemma StepIncreasesId(centerId: int, workerId: int, s: GenState, now: UnixMs, ticks: seq<UnixMs>)
    requires ValidCenterId(centerId) && ValidWorkerId(workerId) && ValidSequence(s.sequence)
    requires CanStep(s, now, ticks)
    requires TimeInRange(s) && TimeInRange(Step(s, now, ticks))
    ensures ValidSequence(Step(s, now, ticks).sequence)
    ensures IdOf(centerId, workerId, s) < IdOf(centerId, workerId, Step(s, now, ticks))
  {
    var r := Step(s, now, ticks);
    StepProperties(s, now, ticks);
    ComposeOrdered(s.lastTimestamp - InitialTimestamp, s.sequence,
                   r.lastTimestamp - InitialTimestamp, r.sequence, centerId, workerId);
  }

  /** One clock behaviour during one call of `Next`. */
  datatype Reading = Reading(now: UnixMs, ticks: seq<UnixMs>)

  /** The states after each of a series of `Next` calls. */
  function Run(s: GenState, calls: seq<Reading>): (states: seq<GenState>)
    requires ValidSequence(s.sequence)
    requires CanRun(s, calls)
    ensures |states| == |calls|
    decreases |calls|
  {
    if calls == [] then []
    else
      StepProperties(s, calls[0].now, calls[0].ticks);
      var next := Step(s, calls[0].now, calls[0].ticks);
      [next] + Run(next, calls[1..])
  }

  /** Every call of the series meets the demand `Next` makes of the clock. */
  predicate CanRun(s: GenState, calls: seq<Reading>)
    requires ValidSequence(s.sequence)
    decreases |calls|
  {
    calls != [] ==>
      && CanStep(s, calls[0].now, calls[0].ticks)
      && (StepProperties(s, calls[0].now, calls[0].ticks);
          CanRun(Step(s, calls[0].now, calls[0].ticks), calls[1..]))
  }

  /** Every timestamp the series of calls settles on fits the 41-bit field. */
  predicate RunInRange(s: GenState, calls: seq<Reading>)
    requires ValidSequence(s.sequence) && CanRun(s, calls)
  {
    forall i :: 0 <= i < |calls| ==> TimeInRange(Run(s, calls)[i])
  }

  /** The ids a series of `Next` calls returns. */
  function RunIds(centerId: int, workerId: int, s: GenState, calls: seq<Reading>): (ids: seq<Int64>)
    requires ValidCenterId(centerId) && ValidWorkerId(workerId) && ValidSequence(s.sequence)
    requires CanRun(s, calls)
    ensures |ids| == |calls|
    decreases |calls|
  {
    if calls == [] then []
    else
      StepProperties(s, calls[0].now, calls[0].ticks);
      var next := Step(s, calls[0].now, calls[0].ticks);
      [IdOf(centerId, workerId, next)] + RunIds(centerId, workerId, next, calls[1..])
  }

  predicate StrictlyIncreasing(ids: seq<int>) {
    forall i, j :: 0 <= i < j < |ids| ==> ids[i] < ids[j]
  }

  /**
   * Monotonicity under every clock behaviour: the ids of successive `Next` calls grow
   * strictly, and exceed the id of the state they start from, provided every timestamp the
   * generator settles on fits the 41-bit field.
   */
  lemma {:induction false} RunIdsIncreasing(centerId: int, workerId: int, s: GenState, calls: seq<Reading>)
    requires ValidCenterId(centerId) && ValidWorkerId(workerId) && ValidSequence(s.sequence)
    requires CanRun(s, calls) && RunInRange(s, calls)
    ensures StrictlyIncreasing(RunIds(centerId, workerId, s, calls))
    ensures TimeInRange(s) ==>
      forall i :: 0 <= i < |calls| ==> IdOf(centerId, workerId, s) < RunIds(centerId, workerId, s, calls)[i]
    decreases |calls|
  {
    if calls != [] {
      StepProperties(s, calls[0].now, calls[0].ticks);
      var next := Step(s, calls[0].now, calls[0].ticks);
      var rest := calls[1..];
      var ids := RunIds(centerId, workerId, s, calls);
      var tail := RunIds(centerId, workerId, next, rest);
      assert ids == [IdOf(centerId, workerId, next)] + tail;
      assert Run(s, calls) == [next] + Run(next, rest);
      assert TimeInRange(next) by { assert Run(s, calls)[0] == next; }
      assert RunInRange(next, rest) by {
        forall i | 0 <= i < |rest| ensures TimeInRange(Run(next, rest)[i]) {
          assert Run(s, calls)[i + 1] == Run(next, rest)[i];
        }
      }
      RunIdsIncreasing(centerId, workerId, next, rest);
      if TimeInRange(s) {
        StepIncreasesId(centerId, workerId, s, calls[0].now, calls[0].ticks);
      }
    }
  }

  /** After `FixLastTimestamp(id)`, the next id is larger than `id`. */
  lemma FixThenStepExceeds(centerId: int, workerId: int, s: GenState, id: Int64, now: UnixMs, ticks: seq<UnixMs>)
    requires ValidCenterId(centerId) && ValidWorkerId(workerId) && ValidSequence(s.sequence)
    requires CanStep(Fix(s, id), now, ticks)
    requires TimeInRange(Step(Fix(s, id), now, ticks))
    ensures ValidSequence(Step(Fix(s, id), now, ticks).sequence)
    ensures id < IdOf(centerId, workerId, Step(Fix(s, id), now, ticks))
  {
    var fixed := Fix(s, id);
    var r := Step(fixed, now, ticks);
    StepProperties(fixed, now, ticks);
    var o := r.lastTimestamp - InitialTimestamp;
    ComposeNonNegative(o, centerId, workerId, r.sequence);
    assert o >= TimeOffset(id) + 1;
    MulMonotone(TimeOffset(id) + 1, o, TimeUnit);
    assert id == TimeOffset(id) * TimeUnit + id % TimeUnit;
  }

  /** A flake `Next` returns decodes, through `Analyze`, to itself. */
  lemma AnalyzeFlakeOf(centerId: int, workerId: int, s: GenState)
    requires ValidCenterId(centerId) && ValidWorkerId(workerId) && ValidSequence(s.sequence)
    requires -TimeLimit <= s.lastTimestamp - InitialTimestamp < TimeLimit
    ensures Analyze(FlakeOf(centerId, workerId, s).id) == FlakeOf(centerId, workerId, s)
  {
    AnalyzeCompose(s.lastTimestamp - InitialTimestamp, centerId, workerId, s.sequence);
  }

  /**
   * The id bounds both `GetIdentiferRange` overloads compute from millisecond bounds:
   * `(minTimestamp - _initialTimestamp - offset << 22) | ... | 0` and the same for the
   * maximum with the sequence bits all set, where `offset` is the local zone's base UTC
   * offset in milliseconds.
   */
  function IdentifierRange(centerId: int, workerId: int, minTimestamp: int, maxTimestamp: int, offset: int): (Int64, Int64)
    requires ValidCenterId(centerId) && ValidWorkerId(workerId)
  {
    (Compose(minTimestamp - InitialTimestamp - offset, centerId, workerId, 0),
     Compose(maxTimestamp - InitialTimestamp - offset, centerId, workerId, SequenceMask))
  }

  /**
   * The second overload, `GetIdentiferRange(minDateTime, maxDateTime)`: each local
   * date-time, as wall-clock milliseconds, is first converted to a UTC instant by
   * `new DateTimeOffset(dateTime)`, which subtracts the zone's offset at that date
   * (`minConversion`, `maxConversion`); the shared arithmetic then subtracts `offset` again.
   */
  function RangeBetween(centerId: int, workerId: int, minLocal: int, maxLocal: int,
                        minConversion: int, maxConversion: int, offset: int): (Int64, Int64)
    requires ValidCenterId(centerId) && ValidWorkerId(workerId)
  {
    IdentifierRange(centerId, workerId, minLocal - minConversion, maxLocal - maxConversion, offset)
  }

  /**
   * The bounds carry this node's center and worker ids, sequence 0 and 4095 respectively,
   * and the time fields `bound - _initialTimestamp - offset`.
   */
  lemma IdentifierRangeShape(centerId: int, workerId: int, minTimestamp: int, maxTimestamp: int, offset: int)
    requires ValidCenterId(centerId) && ValidWorkerId(workerId)
    requires -TimeLimit <= minTimestamp - InitialTimestamp - offset < TimeLimit
    requires -TimeLimit <= maxTimestamp - InitialTimestamp - offset < TimeLimit
    ensures var (minId, maxId) := IdentifierRange(centerId, workerId, minTimestamp, maxTimestamp, offset);
      && Analyze(minId) == Flake(minId, centerId, workerId, minTimestamp - offset, 0)
      && Analyze(maxId) == Flake(maxId, centerId, workerId, maxTimestamp - offset, SequenceMask)
      && TimeOffset(minId) == minTimestamp - InitialTimestamp - offset
      && TimeOffset(maxId) == maxTimestamp - InitialTimestamp - offset
  {
    AnalyzeCompose(minTimestamp - InitialTimestamp - offset, centerId, workerId, 0);
    AnalyzeCompose(maxTimestamp - InitialTimestamp - offset, centerId, workerId, SequenceMask);
  }

  /**
   * An id this node encodes for timestamp `ts` lies within the bounds exactly when
   * `ts` lies in [minTimestamp - offset, maxTimestamp - offset], whatever its sequence.
   */
  lemma IdentifierRangeCovers(centerId: int, workerId: int, minTimestamp: int, maxTimestamp: int, offset: int,
                              ts: int, sequence: int)
    requires ValidCenterId(centerId) && ValidWorkerId(workerId) && ValidSequence(sequence)
    requires OffsetInRange(minTimestamp - InitialTimestamp - offset)
    requires OffsetInRange(maxTimestamp - InitialTimestamp - offset)
    requires OffsetInRange(ts - InitialTimestamp)
    ensures var (minId, maxId) := IdentifierRange(centerId, workerId, minTimestamp, maxTimestamp, offset);
      var id := Compose(ts - InitialTimestamp, centerId, workerId, sequence);
      minId <= id <= maxId <==> minTimestamp - offset <= ts <= maxTimestamp - offset
  {
    var o := ts - InitialTimestamp;
    ComposeOrdered(minTimestamp - InitialTimestamp - offset, 0, o, sequence, centerId, workerId);
    ComposeOrdered(o, sequence, maxTimestamp - InitialTimestamp - offset, SequenceMask, centerId, workerId);
  }

  /**
   * The second overload does not agree with the first on the same wall-clock bounds: when
   * the conversion offset equals the base offset, the zone offset is subtracted twice, and
   * the minimum ids coincide only in a zone at UTC.
   */
  lemma RangeBetweenSubtractsTwice(centerId: int, workerId: int, minLocal: int, maxLocal: int, offset: int)
    requires ValidCenterId(centerId) && ValidWorkerId(workerId)
    requires -TimeLimit <= minLocal - InitialTimestamp - 2 * offset < TimeLimit
    requires -TimeLimit <= minLocal - InitialTimestamp - offset < TimeLimit
    ensures var (minId, _) := RangeBetween(centerId, workerId, minLocal, maxLocal, offset, offset, offset);
      Analyze(minId).timestamp == minLocal - 2 * offset
    ensures (RangeBetween(centerId, workerId, minLocal, maxLocal, offset, offset, offset).0
             == IdentifierRange(centerId, workerId, minLocal, maxLocal, offset).0) <==> offset == 0
  {
    AnalyzeCompose(minLocal - InitialTimestamp - 2 * offset, centerId, workerId, 0);
    AnalyzeCompose(minLocal - InitialTimestamp - offset, centerId, workerId, 0);
  }

  /**
   * A frozen clock at `_initialTimestamp + 1000` on a fresh node 0/0: the first id has
   * sequence 0 and time offset 1000, the second sequence 1 and is one larger.
   */
  lemma FrozenClockScenario()
    ensures var s1 := Step(GenState(0, 0), InitialTimestamp + 1000, []);
      var s2 := Step(s1, InitialTimestamp + 1000, []);
      && s1 == GenState(0, InitialTimestamp + 1000) && s2 == GenState(1, InitialTimestamp + 1000)
      && IdOf(0, 0, s1) == 1000 * TimeUnit && IdOf(0, 0, s2) == IdOf(0, 0, s1) + 1
  {
  }

  /** The generator. */
  class SnowflakeHelper {
    const centerId: int
    const workerId: int
    var sequence: int
    var lastSequenceTimestamp: int

    ghost predicate Valid()
      reads this
    {
      ValidCenterId(centerId) && ValidWorkerId(workerId) && ValidSequence(sequence)
    }

    function State(): GenState
      reads this
    {
      GenState(sequence, lastSequenceTimestamp)
    }

    /** The constructor once its range checks have passed. */
    constructor (settings: SnowflakeSettings)
      requires SettingsInRange(settings)
      ensures Valid()
      ensures centerId == settings.centerId && workerId == settings.workerId
      ensures State() == GenState(0, 0)
    {
      centerId := settings.centerId;
      workerId := settings.workerId;
      sequence := 0;
      lastSequenceTimestamp := 0;
    }

    /** `new SnowflakeHelper(settings)`: fails unless both ids lie in [0, 31]. */
    static method Create(settings: SnowflakeSettings) returns (r: Result<SnowflakeHelper, Thrown>)
      ensures r.Failure? <==> !SettingsInRange(settings)
      ensures r.Success? ==>
        && fresh(r.value) && r.value.Valid()
        && r.value.centerId == settings.centerId && r.value.workerId == settings.workerId
        && r.value.State() == GenState(0, 0)
    {
      if settings.centerId < 0 || settings.centerId > MaxCenterId {
        return Failure(ArgumentOutOfRange);
      }
      if settings.workerId < 0 || settings.workerId > MaxWorkerId {
        return Failure(ArgumentOutOfRange);
      }
      var helper := new SnowflakeHelper(settings);
      return Success(helper);
    }

    /** `FixLastTimestamp(id)`: the next id will not reuse a millisecond at or before `id`'s. */
    method FixLastTimestamp(id: Int64)
      requires Valid()
      modifies this
      ensures Valid()
      ensures State() == Fix(old(State()), id)
    {
      var timestamp := TimeOffset(id);
      lastSequenceTimestamp := timestamp + InitialTimestamp + 1;
    }

    /** `Next()` with the clock readings as parameters. */
    method Next(now: UnixMs, ticks: seq<UnixMs>) returns (r: Result<Flake, Thrown>)
      requires Valid() && CanStep(State(), now, ticks)
      modifies this
      ensures Valid()
      ensures State() == Step(old(State()), now, ticks)
      ensures r == NextResult(centerId, workerId, State())
    {
      var currentTimestamp: int := now;
      if currentTimestamp > lastSequenceTimestamp {
        sequence := 0;
      } else if currentTimestamp == lastSequenceTimestamp {
        sequence := NextSequence(sequence);
        if sequence == 0 {
          currentTimestamp := GetNextTimestamp(lastSequenceTimestamp, ticks);
        }
      } else {
        sequence := NextSequence(sequence);
        if sequence > 0 {
          currentTimestamp := lastSequenceTimestamp;
        } else {
          currentTimestamp := lastSequenceTimestamp + 1;
        }
      }
      lastSequenceTimestamp := currentTimestamp;
      if currentTimestamp < MinUnixMs || currentTimestamp > MaxUnixMs {
        return Failure(ArgumentOutOfRange);
      }
      var flake := Flake(Compose(currentTimestamp - InitialTimestamp, centerId, workerId, sequence),
                         centerId, workerId, currentTimestamp, sequence);
      return Success(flake);
    }

    /** The spin loop: reads the clock until it passes `lastTimestamp`. */
    static method GetNextTimestamp(lastTimestamp: int, ticks: seq<UnixMs>) returns (currentTimestamp: UnixMs)
      requires ClockAdvances(ticks, lastTimestamp)
      ensures currentTimestamp == FirstAfter(ticks, lastTimestamp)
    {
      var i := 0;
      currentTimestamp := ticks[0];
      while currentTimestamp <= lastTimestamp
        invariant 0 <= i < |ticks| && currentTimestamp == ticks[i]
        invariant ClockAdvances(ticks[i..], lastTimestamp)
        invariant FirstAfter(ticks[i..], lastTimestamp) == FirstAfter(ticks, lastTimestamp)
        decreases |ticks| - i
      {
        assert ticks[i..][1..] == ticks[i + 1..];
        i := i + 1;
        currentTimestamp := ticks[i];
      }
      assert ticks[i..][0] == currentTimestamp;
    }
  }
}
