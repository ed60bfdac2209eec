/**
 * The slot list of scheduler_app/views.py: the day's periods in order, with a
 * break inserted after each period that the break schedule names.
 */
module TimetableSlots {
  import opened Clock
  import opened Decimal

  /** One column of the displayed day; a break has no period index. */
  datatype Slot =
    | Period(caption: string, start: Minutes, end: Minutes, index: int)
    | Break(caption: string, start: Minutes, end: Minutes)

  /** The shape of a slot before times are assigned. */
  datatype Piece = PeriodPiece(number: nat) | BreakPiece(after: nat, minutes: int)

  /** The caption of period i. */
  function PeriodLabel(i: nat): string
  {
    "Period " + NatToString(i)
  }

  /** The label of the break after period i lasting `minutes`. */
  function BreakLabel(i: nat, minutes: int): string
  {
    if minutes >= 30 && i == 4 then "Lunch Break" else "Break after " + NatToString(i)
  }

  /** A period caption is "Period " followed by the digits of its number. */
  lemma PeriodLabelNumber(i: nat)
    ensures PeriodLabel(i)[..7] == "Period " && DigitsValue(PeriodLabel(i)[7..]) == i
  {
    NatToStringValue(i);
    assert PeriodLabel(i)[7..] == NatToString(i);
  }

  /** A break caption other than the lunch break is "Break after " followed by the digits of the period it follows. */
  lemma BreakLabelNumber(i: nat, minutes: int)
    requires !(minutes >= 30 && i == 4)
    ensures BreakLabel(i, minutes)[..12] == "Break after " && DigitsValue(BreakLabel(i, minutes)[12..]) == i
  {
    NatToStringValue(i);
    assert BreakLabel(i, minutes)[12..] == NatToString(i);
  }

  /** A break is the lunch break exactly when it follows period 4 and lasts 30 minutes or more. */
  lemma BreakLabelLunch(i: nat, minutes: int)
    ensures BreakLabel(i, minutes) == "Lunch Break" <==> i == 4 && minutes >= 30
  {
    if !(minutes >= 30 && i == 4) {
      assert BreakLabel(i, minutes)[0] == 'B';
    }
  }

  /**
   * The pieces of a day of `periods` periods: period i, followed by a break
   * when i is a key of `breaks`.  Keys outside 1..periods are never looked at.
   */
  function Plan(breaks: map<int, int>, periods: int): seq<Piece>
    decreases periods
  {
    if periods <= 0 then []
    else Plan(breaks, periods - 1) + [PeriodPiece(periods)]
         + (if periods in breaks then [BreakPiece(periods, breaks[periods])] else [])
  }

  /** The slot a piece becomes when it starts at `t`. */
  function SlotFor(p: Piece, t: Minutes, duration: int): (s: Slot)
    ensures s.start == t
  {
    match p
    case PeriodPiece(i) => Period(PeriodLabel(i), t, AddMinutes(t, duration), i)
    case BreakPiece(i, m) => Break(BreakLabel(i, m), t, AddMinutes(t, m))
  }

  /** How long a piece lasts. */
  function Length(p: Piece, duration: int): int
  {
    match p
    case PeriodPiece(_) => duration
    case BreakPiece(_, m) => m
  }

  /**
   * `slots` lays out `plan` back to back from `start`: slot k is piece k,
   * starting at `start` for the first and where slot k-1 ended otherwise.
   */
  predicate LaidOut(slots: seq<Slot>, start: Minutes, duration: int, plan: seq<Piece>)
  {
    && |slots| == |plan|
    && (|slots| > 0 ==> slots[0] == SlotFor(plan[0], start, duration))
    && forall k :: 0 < k < |slots| ==> slots[k] == SlotFor(plan[k], slots[k - 1].end, duration)
  }

  lemma LaidOutSnoc(slots: seq<Slot>, start: Minutes, duration: int, plan: seq<Piece>, p: Piece)
    requires LaidOut(slots, start, duration, plan)
    ensures LaidOut(slots + [SlotFor(p, if slots == [] then start else slots[|slots| - 1].end, duration)],
                    start, duration, plan + [p])
  {
  }

  /** The slot list with breaks, as the timetable page builds it. */
  method GenerateSlots(start: Minutes, duration: int, periods: int, breaks: map<int, int>)
    returns (result: seq<Slot>)
    ensures LaidOut(result, start, duration, Plan(breaks, periods))
  {
    result := [];
    var startTime := start;
    var i := 1;
    while i <= periods
      invariant 1 <= i <= if periods >= 1 then periods + 1 else 1
      invariant LaidOut(result, start, duration, Plan(breaks, i - 1))
      invariant startTime == if result == [] then start else result[|result| - 1].end
    {
      var endTime := AddMinutes(startTime, duration);
      LaidOutSnoc(result, start, duration, Plan(breaks, i - 1), PeriodPiece(i));
      result := result + [Period(PeriodLabel(i), startTime, endTime, i)];
      startTime := endTime;
      if i in breaks {
        var breakEnd := AddMinutes(startTime, breaks[i]);
        LaidOutSnoc(result, start, duration, Plan(breaks, i - 1) + [PeriodPiece(i)], BreakPiece(i, breaks[i]));
        result := result + [Break(BreakLabel(i, breaks[i]), startTime, breakEnd)];
        startTime := breakEnd;
      }
      assert Plan(breaks, i) == Plan(breaks, i - 1) + [PeriodPiece(i)]
        + (if i in breaks then [BreakPiece(i, breaks[i])] else []);
      i := i + 1;
    }
  }

  /**
   * Laid-out slots are contiguous: the first starts at `start`, each ends
   * its piece's length after it starts, and each later one starts where the
   * one before it ended.
   */
  lemma LaidOutContiguous(slots: seq<Slot>, start: Minutes, duration: int, plan: seq<Piece>)
    requires LaidOut(slots, start, duration, plan)
    ensures |slots| > 0 ==> slots[0].start == start
    ensures forall k :: 0 <= k < |slots| ==> slots[k].end == AddMinutes(slots[k].start, Length(plan[k], duration))
    ensures forall k :: 0 < k < |slots| ==> slots[k].start == slots[k - 1].end
  {
    forall k | 0 <= k < |slots|
      ensures slots[k].end == AddMinutes(slots[k].start, Length(plan[k], duration))
    {
      var t := if k == 0 then start else slots[k - 1].end;
      assert slots[k] == SlotFor(plan[k], t, duration);
    }
  }

  /** The period numbers of a plan, in order. */
  function PeriodNumbers(plan: seq<Piece>): seq<int>
  {
    if plan == [] then []
    else PeriodNumbers(plan[..|plan| - 1])
         + (if plan[|plan| - 1].PeriodPiece? then [plan[|plan| - 1].number] else [])
  }

  lemma PeriodNumbersAppend(a: seq<Piece>, b: seq<Piece>)
    ensures PeriodNumbers(a + b) == PeriodNumbers(a) + PeriodNumbers(b)
    decreases |b|
  {
    if b != [] {
      assert (a + b)[..|a + b| - 1] == a + b[..|b| - 1];
      PeriodNumbersAppend(a, b[..|b| - 1]);
    } else {
      assert a + b == a;
    }
  }

  /** What Plan adds for period `i`: the period, then its break if it has one. */
  function Step(breaks: map<int, int>, i: nat): seq<Piece>
  {
    [PeriodPiece(i)] + (if i in breaks then [BreakPiece(i, breaks[i])] else [])
  }

  lemma PlanStep(breaks: map<int, int>, periods: int)
    requires periods >= 1
    ensures Plan(breaks, periods) == Plan(breaks, periods - 1) + Step(breaks, periods)
  {
  }

  lemma StepNumbers(breaks: map<int, int>, i: nat)
    ensures PeriodNumbers(Step(breaks, i)) == [i]
  {
    var st := Step(breaks, i);
    if i in breaks {
      assert st[..1] == [PeriodPiece(i)];
      assert [PeriodPiece(i)][..0] == [];
      assert PeriodNumbers([PeriodPiece(i)]) == [i];
      assert PeriodNumbers(st) == PeriodNumbers(st[..1]);
    } else {
      assert st[..0] == [];
    }
  }

  /** The periods of the plan are 1, 2, ..., periods, in that order. */
  lemma {:induction false} PlanPeriodsInOrder(breaks: map<int, int>, periods: int)
    ensures PeriodNumbers(Plan(breaks, periods)) == seq(if periods <= 0 then 0 else periods, k => k + 1)
    decreases periods
  {
    if periods > 0 {
      PlanPeriodsInOrder(breaks, periods - 1);
      PlanStep(breaks, periods);
      PeriodNumbersAppend(Plan(breaks, periods - 1), Step(breaks, periods));
      StepNumbers(breaks, periods);
      assert seq(periods, k => k + 1) == seq(periods - 1, k => k + 1) + [periods];
    }
  }

  /** Piece k of `plan` sits where a day of `periods` periods puts it. */
  ghost predicate WellPlaced(plan: seq<Piece>, breaks: map<int, int>, periods: int, k: int)
    requires 0 <= k < |plan|
  {
    && (plan[k].BreakPiece? ==>
          k >= 1 && plan[k - 1] == PeriodPiece(plan[k].after) &&
          plan[k].after in breaks && plan[k].minutes == breaks[plan[k].after])
    && (plan[k].PeriodPiece? ==>
          1 <= plan[k].number <= periods &&
          (plan[k].number in breaks <==> k + 1 < |plan| && plan[k + 1].BreakPiece?) &&
          (plan[k].number in breaks ==> plan[k + 1] == BreakPiece(plan[k].number, breaks[plan[k].number])))
  }

  /**
   * Where breaks are: every break follows the period it is keyed by, whose
   * number is a key of `breaks`, and lasts what `breaks` says; and a period
   * is followed by a break exactly when its number is a key.  Every period
   * number is in 1..periods.
   */
  lemma {:induction false} PlanBreakPlacement(breaks: map<int, int>, periods: int)
    ensures forall k :: 0 <= k < |Plan(breaks, periods)| ==> WellPlaced(Plan(breaks, periods), breaks, periods, k)
    decreases periods
  {
    if periods > 0 {
      PlanBreakPlacement(breaks, periods - 1);
      PlanStep(breaks, periods);
      var prev := Plan(breaks, periods - 1);
      var plan := Plan(breaks, periods);
      var n := |prev|;
      assert plan[n] == PeriodPiece(periods);
      forall k | 0 <= k < |plan|
        ensures WellPlaced(plan, breaks, periods, k)
      {
        if k < n {
          assert WellPlaced(prev, breaks, periods - 1, k);
          assert plan[k] == prev[k];
          if k + 1 < n {
            assert plan[k + 1] == prev[k + 1];
          } else if prev[k].PeriodPiece? {
            assert prev[k].number !in breaks;
          }
          if k >= 1 {
            assert plan[k - 1] == prev[k - 1];
          }
        } else if k == n {
          assert periods in breaks ==> |plan| == n + 2 && plan[n + 1] == BreakPiece(periods, breaks[periods]);
          assert periods !in breaks ==> |plan| == n + 1;
        } else {
          assert periods in breaks && k == n + 1 && plan[k] == BreakPiece(periods, breaks[periods]);
        }
      }
    }
  }

  /** The break keys that fall on a period of the day. */
  function BreaksInRange(breaks: map<int, int>, periods: int): set<int>
  {
    set i | i in breaks && 1 <= i <= periods
  }

  /** There are `periods` periods plus one break per key in range. */
  lemma {:induction false} PlanLength(breaks: map<int, int>, periods: int)
    ensures |Plan(breaks, periods)| == (if periods <= 0 then 0 else periods) + |BreaksInRange(breaks, periods)|
    decreases periods
  {
    if periods <= 0 {
      assert BreaksInRange(breaks, periods) == {};
    } else {
      PlanLength(breaks, periods - 1);
      var before := BreaksInRange(breaks, periods - 1);
      if periods in breaks {
        assert BreaksInRange(breaks, periods) == before + {periods};
      } else {
        assert BreaksInRange(breaks, periods) == before;
      }
    }
  }

  /** The plan of the standard day: periods 1-8 with a 60-minute break after period 4. */
  lemma LunchPlan()
    ensures Plan(map[4 := 60], 8) ==
      [PeriodPiece(1), PeriodPiece(2), PeriodPiece(3), PeriodPiece(4), BreakPiece(4, 60),
       PeriodPiece(5), PeriodPiece(6), PeriodPiece(7), PeriodPiece(8)]
  {
    var b := map[4 := 60];
    assert Plan(b, 3) == [PeriodPiece(1), PeriodPiece(2), PeriodPiece(3)];
    assert Plan(b, 4) == Plan(b, 3) + [PeriodPiece(4), BreakPiece(4, 60)];
    assert Plan(b, 6) == Plan(b, 4) + [PeriodPiece(5), PeriodPiece(6)];
  }

  /** The same day without breaks: periods 1-8 back to back. */
  lemma PlainPlan()
    ensures Plan(map[], 8) ==
      [PeriodPiece(1), PeriodPiece(2), PeriodPiece(3), PeriodPiece(4),
       PeriodPiece(5), PeriodPiece(6), PeriodPiece(7), PeriodPiece(8)]
  {
    var e: map<int, int> := map[];
    assert Plan(e, 4) == [PeriodPiece(1), PeriodPiece(2), PeriodPiece(3), PeriodPiece(4)];
  }

  /**
   * The timetable page's day: eight 50-minute periods from 10:00 with a
   * 60-minute break after period 4.  Periods 1-4 are where they would be
   * without the break; the break is the lunch break from 13:20 to 14:20;
   * period 5 starts 60 minutes after period 4 ends.
   */
  lemma LunchBreakDay(slots: seq<Slot>, plain: seq<Slot>)
    requires LaidOut(slots, 600, 50, Plan(map[4 := 60], 8))
    requires LaidOut(plain, 600, 50, Plan(map[], 8))
    ensures |slots| == 9 && |plain| == 8
    ensures slots[..4] == plain[..4]
    ensures slots[3] == Period("Period 4", 750, 800, 4)
    ensures slots[4] == Break("Lunch Break", 800, 860)
    ensures slots[5] == Period("Period 5", 860, 910, 5)
    ensures slots[5].start == AddMinutes(slots[3].end, 60)
  {
    LunchPlan();
    PlainPlan();
    assert NatToString(4) == "4" && NatToString(5) == "5";
    assert slots[0] == Period(PeriodLabel(1), 600, 650, 1) == plain[0];
    assert slots[1] == Period(PeriodLabel(2), 650, 700, 2) == plain[1];
    assert slots[2] == Period(PeriodLabel(3), 700, 750, 3) == plain[2];
    assert slots[3] == Period(PeriodLabel(4), 750, 800, 4) == plain[3];
    assert slots[4] == Break(BreakLabel(4, 60), 800, 860);
    assert slots[5] == Period(PeriodLabel(5), 860, 910, 5);
  }
}
