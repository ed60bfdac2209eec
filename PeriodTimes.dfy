/**
 * The period-time table of scheduler_app/scheduler_service.py: period i of a
 * day of back-to-back periods, each `duration` minutes long.
 */
module PeriodTimes {
  import opened Clock

  /** (start, end) time of every period, keyed by period number. */
  type PeriodTable = map<int, (Minutes, Minutes)>

  /** Period i spans minutes (i-1)*duration .. i*duration after the day's start. */
  function PeriodSpan(start: Minutes, duration: int, i: int): (Minutes, Minutes)
  {
    (AddMinutes(start, (i - 1) * duration), AddMinutes(start, i * duration))
  }

  /** The table in closed form: periods 1..periods (none when periods <= 0). */
  function Table(start: Minutes, duration: int, periods: int): PeriodTable
  {
    map i | 1 <= i <= periods :: PeriodSpan(start, duration, i)
  }

  /**
   * Walks the periods one by one, each starting when the previous ended.
   */
  method GeneratePeriodTimes(start: Minutes, duration: int, periods: int) returns (periodTimes: PeriodTable)
    ensures periodTimes == Table(start, duration, periods)
  {
    periodTimes := map[];
    var startTime := start;
    var i := 1;
    while i <= periods
      invariant 1 <= i <= if periods >= 1 then periods + 1 else 1
      invariant startTime == AddMinutes(start, (i - 1) * duration)
      invariant periodTimes == Table(start, duration, i - 1)
    {
      var endTime := AddMinutes(startTime, duration);
      SpanChain(start, duration, i);
      periodTimes := periodTimes[i := (startTime, endTime)];
      startTime := endTime;
      i := i + 1;
    }
    if periods < 1 {
      assert forall k :: k !in Table(start, duration, periods);
      assert Table(start, duration, periods) == Table(start, duration, 0);
    }
  }

  lemma MulStep(i: int, d: int)
    ensures (i - 1) * d + d == i * d
  {
  }

  /** One period's span ends `duration` after it starts, where the next begins. */
  lemma SpanChain(start: Minutes, duration: int, i: int)
    ensures PeriodSpan(start, duration, i).1 == AddMinutes(PeriodSpan(start, duration, i).0, duration)
    ensures PeriodSpan(start, duration, i + 1).0 == PeriodSpan(start, duration, i).1
  {
    AddMinutesTwice(start, (i - 1) * duration, duration);
    MulStep(i, duration);
    MulStep(i + 1, duration);
  }

  /**
   * The table has exactly the keys 1..periods; the first period starts at
   * `start`; every period ends `duration` minutes after it starts; and
   * period i+1 starts exactly when period i ends.
   */
  lemma TableChain(start: Minutes, duration: int, periods: int)
    ensures forall i :: i in Table(start, duration, periods) <==> 1 <= i <= periods
    ensures periods >= 1 ==> Table(start, duration, periods)[1].0 == start
    ensures forall i :: 1 <= i <= periods ==>
      Table(start, duration, periods)[i].1 == AddMinutes(Table(start, duration, periods)[i].0, duration)
    ensures forall i :: 1 <= i < periods ==>
      Table(start, duration, periods)[i + 1].0 == Table(start, duration, periods)[i].1
  {
    TableKeys(start, duration, periods);
    if periods >= 1 {
      TableFirst(start, duration, periods);
    }
    forall i | 1 <= i <= periods
      ensures Table(start, duration, periods)[i].1 == AddMinutes(Table(start, duration, periods)[i].0, duration)
      ensures i < periods ==> Table(start, duration, periods)[i + 1].0 == Table(start, duration, periods)[i].1
    {
      TableEntryChain(start, duration, periods, i);
    }
  }

  lemma TableKeys(start: Minutes, duration: int, periods: int)
    ensures forall i :: i in Table(start, duration, periods) <==> 1 <= i <= periods
  {
  }

  lemma TableFirst(start: Minutes, duration: int, periods: int)
    requires periods >= 1
    ensures Table(start, duration, periods)[1].0 == start
  {
    assert Table(start, duration, periods)[1] == PeriodSpan(start, duration, 1);
    assert (1 - 1) * duration == 0;
    AddNothing(start);
  }

  lemma TableEntryChain(start: Minutes, duration: int, periods: int, i: int)
    requires 1 <= i <= periods
    ensures Table(start, duration, periods)[i].1 == AddMinutes(Table(start, duration, periods)[i].0, duration)
    ensures i < periods ==> Table(start, duration, periods)[i + 1].0 == Table(start, duration, periods)[i].1
  {
    var t := Table(start, duration, periods);
    assert t[i] == PeriodSpan(start, duration, i);
    if i < periods {
      assert t[i + 1] == PeriodSpan(start, duration, i + 1);
    }
    SpanChain(start, duration, i);
  }

  /** A non-positive period count gives an empty table. */
  lemma EmptyTable(start: Minutes, duration: int, periods: int)
    requires periods <= 0
    ensures Table(start, duration, periods) == map[]
  {
  }
}
