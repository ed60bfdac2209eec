/**
 * The timetable page of scheduler_app/views.py: for one section, a grid of
 * six day rows whose cells follow the day's slots (periods and breaks),
 * each period cell showing the class booked there, plus the number of
 * in-range classes each faculty teaches that section.
 */
module TimetableView {
  import opened Common
  import opened Clock
  import opened Catalog
  import opened TimetableSlots

  const DayNames: seq<string> := ["Monday", "Tuesday", "Wednesday", "Thursday", "Friday", "Saturday"]

  /** One cell of a day row. */
  datatype Cell =
    | Free
    | Booked(subject: SubjectId, faculty: FacultyId, classroom: RoomId,
             startTime: Option<Minutes>, endTime: Option<Minutes>)
    | BreakCell(caption: string, breakStart: Minutes, breakEnd: Minutes)

  datatype Row = Row(dayName: string, cells: seq<Cell>)

  /** A column header: the slot's caption and its times. */
  datatype Header = Header(caption: string, startTime: Minutes, endTime: Minutes)

  /** What the page is rendered from. */
  datatype TimetableContext = TimetableContext(
    sections: seq<Section>,
    selectedSection: Option<SectionId>,
    tableRows: seq<Row>,
    periodHeaders: seq<Header>,
    facultyHours: map<FacultyId, nat>)

  // ---------------------------------------------------------------------
  // The period slots of a day
  // ---------------------------------------------------------------------

  /** The indices of the period slots, in order. */
  function SlotIndices(slots: seq<Slot>): seq<int>
  {
    if slots == [] then []
    else SlotIndices(slots[..|slots| - 1])
         + (if slots[|slots| - 1].Period? then [slots[|slots| - 1].index] else [])
  }

  /**
   * The times of the period slots keyed by index; a later slot with the
   * same index replaces an earlier one.
   */
  function PeriodSlotMap(slots: seq<Slot>): (m: map<int, (Minutes, Minutes)>)
    ensures forall i :: i in m <==> i in SlotIndices(slots)
  {
    if slots == [] then map[]
    else
      var init := slots[..|slots| - 1];
      var s := slots[|slots| - 1];
      if s.Period? then PeriodSlotMap(init)[s.index := (s.start, s.end)] else PeriodSlotMap(init)
  }

  /** The largest element of a non-empty sequence. */
  function SeqMax(xs: seq<int>): (m: int)
    requires xs != []
    ensures m in xs
    ensures forall x :: x in xs ==> x <= m
  {
    if |xs| == 1 then xs[0]
    else
      var rest := SeqMax(xs[1..]);
      assert xs == [xs[0]] + xs[1..];
      if xs[0] > rest then xs[0] else rest
  }

  /** The largest period index, or 0 when there are no period slots. */
  function ActualPeriodCount(slots: seq<Slot>): (n: int)
    ensures SlotIndices(slots) == [] ==> n == 0
    ensures SlotIndices(slots) != [] ==> n in SlotIndices(slots) && forall i :: i in SlotIndices(slots) ==> i <= n
  {
    if SlotIndices(slots) == [] then 0 else SeqMax(SlotIndices(slots))
  }

  /** Some period slot has an index below 1, which the grid has no column for. */
  ghost predicate BadIndex(slots: seq<Slot>)
  {
    exists k :: 0 <= k < |slots| && slots[k].Period? && slots[k].index < 1
  }

  lemma {:induction false} SlotIndicesMembers(slots: seq<Slot>)
    ensures forall i :: i in SlotIndices(slots) <==>
      exists k :: 0 <= k < |slots| && slots[k].Period? && slots[k].index == i
    decreases |slots|
  {
    if slots != [] {
      var init := slots[..|slots| - 1];
      SlotIndicesMembers(init);
      assert forall k :: 0 <= k < |init| ==> init[k] == slots[k];
      forall i | exists k :: 0 <= k < |slots| && slots[k].Period? && slots[k].index == i
        ensures i in SlotIndices(slots)
      {
        var k :| 0 <= k < |slots| && slots[k].Period? && slots[k].index == i;
        if k < |init| {
          assert init[k].Period? && init[k].index == i;
        }
      }
    }
  }

  /** Every period slot's index is at most the period count. */
  lemma IndicesBelowCount(slots: seq<Slot>)
    ensures forall k :: 0 <= k < |slots| && slots[k].Period? ==> slots[k].index <= ActualPeriodCount(slots)
  {
    SlotIndicesMembers(slots);
    forall k | 0 <= k < |slots| && slots[k].Period?
      ensures slots[k].index <= ActualPeriodCount(slots)
    {
      assert slots[k].index in SlotIndices(slots);
    }
  }

  /** Slots laid out from a plan are periods exactly where the plan has periods. */
  lemma LaidOutKinds(slots: seq<Slot>, start: Minutes, duration: int, plan: seq<Piece>)
    requires LaidOut(slots, start, duration, plan)
    ensures forall k :: 0 <= k < |slots| ==>
      (slots[k].Period? <==> plan[k].PeriodPiece?) &&
      (slots[k].Period? ==> slots[k].index == plan[k].number && slots[k].caption == PeriodLabel(plan[k].number)) &&
      (slots[k].Break? ==> slots[k].caption == BreakLabel(plan[k].after, plan[k].minutes))
  {
    forall k | 0 <= k < |slots|
      ensures slots[k].Period? <==> plan[k].PeriodPiece?
      ensures slots[k].Period? ==> slots[k].index == plan[k].number && slots[k].caption == PeriodLabel(plan[k].number)
      ensures slots[k].Break? ==> slots[k].caption == BreakLabel(plan[k].after, plan[k].minutes)
    {
      if k == 0 {
        assert slots[0] == SlotFor(plan[0], start, duration);
      } else {
        assert slots[k] == SlotFor(plan[k], slots[k - 1].end, duration);
      }
    }
  }

  lemma {:induction false} AlignedIndices(slots: seq<Slot>, plan: seq<Piece>)
    requires |slots| == |plan|
    requires forall k :: 0 <= k < |slots| ==>
      (slots[k].Period? <==> plan[k].PeriodPiece?) && (slots[k].Period? ==> slots[k].index == plan[k].number)
    ensures SlotIndices(slots) == PeriodNumbers(plan)
    decreases |slots|
  {
    if slots != [] {
      AlignedIndices(slots[..|slots| - 1], plan[..|plan| - 1]);
    }
  }

  /** When no index repeats, every period slot's times are stored under its index. */
  lemma {:induction false} SlotTimesStored(slots: seq<Slot>)
    requires Distinct(SlotIndices(slots))
    ensures forall k :: 0 <= k < |slots| && slots[k].Period? ==>
      slots[k].index in PeriodSlotMap(slots) &&
      PeriodSlotMap(slots)[slots[k].index] == (slots[k].start, slots[k].end)
    decreases |slots|
  {
    if slots != [] {
      var init := slots[..|slots| - 1];
      var s := slots[|slots| - 1];
      var xs := SlotIndices(init);
      assert SlotIndices(slots)[..|xs|] == xs;
      assert Distinct(xs);
      SlotTimesStored(init);
      SlotIndicesMembers(init);
      forall k | 0 <= k < |slots| && slots[k].Period?
        ensures slots[k].index in PeriodSlotMap(slots)
        ensures PeriodSlotMap(slots)[slots[k].index] == (slots[k].start, slots[k].end)
      {
        if k < |init| && s.Period? {
          assert init[k].Period? && init[k].index == slots[k].index;
          assert slots[k].index in xs;
          var q :| 0 <= q < |xs| && xs[q] == slots[k].index;
          assert SlotIndices(slots) == xs + [s.index];
          assert SlotIndices(slots)[q] == slots[k].index && SlotIndices(slots)[|xs|] == s.index;
        } else if k < |init| {
          assert init[k] == slots[k];
        }
      }
    }
  }

  /** The indices 1..n: each value once, n the largest. */
  lemma OneToN(xs: seq<int>, n: int)
    requires n >= 1 && xs == seq(n, k => k + 1)
    ensures forall x :: x in xs <==> 1 <= x <= n
    ensures Distinct(xs)
    ensures SeqMax(xs) == n
  {
    assert xs[n - 1] == n;
    forall x | 1 <= x <= n ensures x in xs {
      assert xs[x - 1] == x;
    }
    var m := SeqMax(xs);
    assert m in xs && n in xs;
  }

  /**
   * For a day laid out from a plan with at least one period, the period
   * slots are numbered 1..periods in order, so the grid has `periods`
   * columns, every period slot has one, and each index's times are those
   * of its slot.
   */
  lemma GeneratedDayColumns(slots: seq<Slot>, start: Minutes, duration: int, breaks: map<int, int>, periods: int)
    requires periods >= 1
    requires LaidOut(slots, start, duration, Plan(breaks, periods))
    ensures SlotIndices(slots) == seq(periods, k => k + 1)
    ensures ActualPeriodCount(slots) == periods
    ensures !BadIndex(slots)
    ensures forall i :: i in PeriodSlotMap(slots) <==> 1 <= i <= periods
    ensures forall k :: 0 <= k < |slots| && slots[k].Period? ==>
      slots[k].index in PeriodSlotMap(slots) &&
      PeriodSlotMap(slots)[slots[k].index] == (slots[k].start, slots[k].end)
  {
    var plan := Plan(breaks, periods);
    LaidOutKinds(slots, start, duration, plan);
    AlignedIndices(slots, plan);
    PlanPeriodsInOrder(breaks, periods);
    var xs := SlotIndices(slots);
    OneToN(xs, periods);
    SlotIndicesMembers(slots);
    SlotTimesStored(slots);
    forall k | 0 <= k < |slots| && slots[k].Period?
      ensures slots[k].index >= 1
    {
      assert slots[k].index in xs;
    }
  }

  // ---------------------------------------------------------------------
  // The grid for one section
  // ---------------------------------------------------------------------

  /** The section's classes, in table order. */
  function SectionClasses(rows: seq<ScheduledClass>, section: SectionId): (r: seq<ScheduledClass>)
    ensures forall c :: c in r <==> c in rows && c.section == section
  {
    if rows == [] then []
    else
      var rest := SectionClasses(rows[..|rows| - 1], section);
      var c := rows[|rows| - 1];
      assert rows == rows[..|rows| - 1] + [c];
      if c.section == section then rest + [c] else rest
  }

  /** The class the grid keeps for (day, period): the last one listed there. */
  function LastAt(classes: seq<ScheduledClass>, day: int, period: int): (r: Option<ScheduledClass>)
    ensures r.Some? ==> r.value in classes && r.value.day == day && r.value.period == period
    ensures r.None? <==> forall c :: c in classes ==> !(c.day == day && c.period == period)
  {
    if classes == [] then None
    else
      var c := classes[|classes| - 1];
      assert classes == classes[..|classes| - 1] + [c];
      if c.day == day && c.period == period then Some(c) else LastAt(classes[..|classes| - 1], day, period)
  }

  /** The kept class is the last one listed at (day, period): the entry no later entry shares that cell with. */
  lemma {:induction false} LastAtIsLast(classes: seq<ScheduledClass>, day: int, period: int, k: int)
    requires 0 <= k < |classes| && classes[k].day == day && classes[k].period == period
    requires forall j :: k < j < |classes| ==> !(classes[j].day == day && classes[j].period == period)
    ensures LastAt(classes, day, period) == Some(classes[k])
    decreases |classes|
  {
    var n := |classes| - 1;
    if k < n {
      var init := classes[..n];
      LastAtIsLast(init, day, period, k);
    }
  }

  /** A class's period lies within the grid's columns. */
  predicate InGrid(c: ScheduledClass, periodCount: int)
  {
    1 <= c.period <= periodCount
  }

  /** The cell for a class, with its period's times when the period is known. */
  function CellOf(c: ScheduledClass, slotMap: map<int, (Minutes, Minutes)>): Cell
  {
    Booked(c.subject, c.faculty, c.classroom,
           if c.period in slotMap then Some(slotMap[c.period].0) else None,
           if c.period in slotMap then Some(slotMap[c.period].1) else None)
  }

  function GridCell(classes: seq<ScheduledClass>, slotMap: map<int, (Minutes, Minutes)>, day: int, period: int): Cell
  {
    match LastAt(classes, day, period)
    case None => Free
    case Some(c) => CellOf(c, slotMap)
  }

  /** The cell a day row shows under a slot. */
  function ExpectedCell(classes: seq<ScheduledClass>, slotMap: map<int, (Minutes, Minutes)>, day: int, slot: Slot): Cell
  {
    if slot.Period? then GridCell(classes, slotMap, day, slot.index)
    else BreakCell(slot.caption, slot.start, slot.end)
  }

  /** An in-grid class falls on a day that has no row. */
  ghost predicate HasBadDay(classes: seq<ScheduledClass>, periodCount: int)
  {
    exists j :: 0 <= j < |classes| && InGrid(classes[j], periodCount) && !DayInRange(classes[j].day)
  }

  /** The in-grid classes of faculty `f`. */
  function Taught(classes: seq<ScheduledClass>, periodCount: int, f: FacultyId): (r: seq<ScheduledClass>)
    ensures forall c :: c in r <==> c in classes && InGrid(c, periodCount) && c.faculty == f
  {
    if classes == [] then []
    else
      var rest := Taught(classes[..|classes| - 1], periodCount, f);
      var c := classes[|classes| - 1];
      assert classes == classes[..|classes| - 1] + [c];
      if InGrid(c, periodCount) && c.faculty == f then rest + [c] else rest
  }

  /** One more hour for faculty f, as a counter that starts at 0. */
  function Tally(h: map<FacultyId, nat>, f: FacultyId): map<FacultyId, nat>
  {
    h[f := (if f in h then h[f] else 0) + 1]
  }

  /** The per-faculty tally, one increment per in-grid class. */
  function Hours(classes: seq<ScheduledClass>, periodCount: int): (h: map<FacultyId, nat>)
    ensures forall f :: f in h ==> h[f] >= 1
  {
    if classes == [] then map[]
    else
      var h := Hours(classes[..|classes| - 1], periodCount);
      var c := classes[|classes| - 1];
      if InGrid(c, periodCount) then Tally(h, c.faculty) else h
  }

  /**
   * The tally lists exactly the faculties with an in-grid class, and gives
   * each the number of its in-grid classes (a class hidden by a later one
   * at the same slot still counts).
   */
  lemma {:induction false} HoursCount(classes: seq<ScheduledClass>, periodCount: int)
    ensures forall f :: f in Hours(classes, periodCount) <==> Taught(classes, periodCount, f) != []
    ensures forall f :: f in Hours(classes, periodCount) ==>
      Hours(classes, periodCount)[f] == |Taught(classes, periodCount, f)|
    decreases |classes|
  {
    if classes != [] {
      HoursCount(classes[..|classes| - 1], periodCount);
    }
  }

  /** Two rows of a table without double booking at one section, day and period are one row. */
  lemma SameSlotSameRow(table: seq<ScheduledClass>, i: int, j: int)
    requires NoDoubleBooking(table)
    requires 0 <= i < |table| && 0 <= j < |table|
    requires table[i].day == table[j].day && table[i].period == table[j].period
    requires table[i].section == table[j].section
    ensures i == j
  {
  }

  /** With no double booking, a section's grid shows each of its classes at its own day and period. */
  lemma BookedClassShown(table: seq<ScheduledClass>, section: SectionId, c: ScheduledClass,
                         slotMap: map<int, (Minutes, Minutes)>)
    requires NoDoubleBooking(table)
    requires c in table && c.section == section
    ensures GridCell(SectionClasses(table, section), slotMap, c.day, c.period) == CellOf(c, slotMap)
  {
    var classes := SectionClasses(table, section);
    assert c in classes;
    var x := LastAt(classes, c.day, c.period).value;
    var i :| 0 <= i < |table| && table[i] == x;
    var j :| 0 <= j < |table| && table[j] == c;
    SameSlotSameRow(table, i, j);
  }

  /** A cell with no class of the section at its day and period is free. */
  lemma UnbookedCellFree(table: seq<ScheduledClass>, section: SectionId, day: int, period: int,
                         slotMap: map<int, (Minutes, Minutes)>)
    requires forall c :: c in table && c.section == section ==> !(c.day == day && c.period == period)
    ensures GridCell(SectionClasses(table, section), slotMap, day, period) == Free
  {
  }

  /** The day rows for `slots` and `classes`: six rows, each cell as expected. */
  ghost predicate ShowsGrid(rows: seq<Row>, slots: seq<Slot>, classes: seq<ScheduledClass>)
  {
    |rows| == 6 &&
    forall e :: 0 <= e < 6 ==>
      rows[e].dayName == DayNames[e] &&
      |rows[e].cells| == |slots| &&
      forall k :: 0 <= k < |slots| ==>
        rows[e].cells[k] == ExpectedCell(classes, PeriodSlotMap(slots), e + 1, slots[k])
  }

  /** Columns 1..n, all free. */
  function FreeColumns(n: int): (m: map<int, Cell>)
    ensures forall q :: q in m <==> 1 <= q <= n
    ensures forall q :: q in m ==> m[q] == Free
    decreases n
  {
    if n <= 0 then map[] else FreeColumns(n - 1)[n := Free]
  }

  /** `grid` has rows 1..6 and columns 1..count, each cell the one the classes put there. */
  ghost predicate IsGrid(grid: map<int, map<int, Cell>>, classes: seq<ScheduledClass>,
                         slotMap: map<int, (Minutes, Minutes)>, count: int)
  {
    && (forall d :: d in grid <==> 1 <= d <= 6)
    && (forall d, q :: 1 <= d <= 6 ==> (q in grid[d] <==> 1 <= q <= count))
    && (forall d, q :: 1 <= d <= 6 && 1 <= q <= count ==> grid[d][q] == GridCell(classes, slotMap, d, q))
  }

  /** Placing an in-grid class with a valid day keeps the grid up to date. */
  lemma PlaceKeepsGrid(grid: map<int, map<int, Cell>>, classes: seq<ScheduledClass>, i: int,
                       slotMap: map<int, (Minutes, Minutes)>, count: int)
    requires 0 <= i < |classes|
    requires IsGrid(grid, classes[..i], slotMap, count)
    requires InGrid(classes[i], count) && DayInRange(classes[i].day)
    ensures IsGrid(grid[classes[i].day := grid[classes[i].day][classes[i].period := CellOf(classes[i], slotMap)]],
                   classes[..i + 1], slotMap, count)
  {
    assert classes[..i + 1] == classes[..i] + [classes[i]];
    assert classes[..i + 1][..i] == classes[..i];
  }

  /** A class outside the grid leaves the grid as it is. */
  lemma SkipKeepsGrid(grid: map<int, map<int, Cell>>, classes: seq<ScheduledClass>, i: int,
                      slotMap: map<int, (Minutes, Minutes)>, count: int)
    requires 0 <= i < |classes|
    requires IsGrid(grid, classes[..i], slotMap, count)
    requires !InGrid(classes[i], count)
    ensures IsGrid(grid, classes[..i + 1], slotMap, count)
  {
    assert classes[..i + 1] == classes[..i] + [classes[i]];
    assert classes[..i + 1][..i] == classes[..i];
  }

  lemma NoBadDayStep(classes: seq<ScheduledClass>, i: int, count: int)
    requires 0 <= i < |classes|
    requires !HasBadDay(classes[..i], count)
    requires InGrid(classes[i], count) ==> DayInRange(classes[i].day)
    ensures !HasBadDay(classes[..i + 1], count)
  {
    assert classes[..i + 1] == classes[..i] + [classes[i]];
  }

  /** The grid before any class is placed: six days of free columns 1..count. */
  lemma InitialGrid(free: map<int, Cell>, slotMap: map<int, (Minutes, Minutes)>, count: int)
    requires free == FreeColumns(count)
    ensures IsGrid(map[1 := free, 2 := free, 3 := free, 4 := free, 5 := free, 6 := free], [], slotMap, count)
  {
  }

  /** One more in-grid class adds one to its faculty's tally. */
  lemma HoursStep(classes: seq<ScheduledClass>, i: int, count: int)
    requires 0 <= i < |classes|
    ensures Hours(classes[..i + 1], count) ==
      if InGrid(classes[i], count) then Tally(Hours(classes[..i], count), classes[i].faculty)
      else Hours(classes[..i], count)
  {
    assert classes[..i + 1][..i] == classes[..i];
  }

  /** The grid before any class is placed. */
  function EmptyGrid(count: int): map<int, map<int, Cell>>
  {
    var free := FreeColumns(count);
    map[1 := free, 2 := free, 3 := free, 4 := free, 5 := free, 6 := free]
  }

  /** The grid after placing `classes` in order, skipping those outside it or on a day without a row. */
  function GridOf(classes: seq<ScheduledClass>, slotMap: map<int, (Minutes, Minutes)>, count: int)
    : (g: map<int, map<int, Cell>>)
    ensures forall d :: d in g <==> 1 <= d <= 6
  {
    if classes == [] then EmptyGrid(count)
    else
      var g := GridOf(classes[..|classes| - 1], slotMap, count);
      var c := classes[|classes| - 1];
      if InGrid(c, count) && DayInRange(c.day) then g[c.day := g[c.day][c.period := CellOf(c, slotMap)]] else g
  }

  /** Without a bad day, the placed grid holds, at each cell, the last class there. */
  lemma {:induction false} GridOfIsGrid(classes: seq<ScheduledClass>, slotMap: map<int, (Minutes, Minutes)>, count: int)
    requires !HasBadDay(classes, count)
    ensures IsGrid(GridOf(classes, slotMap, count), classes, slotMap, count)
    decreases |classes|
  {
    if classes == [] {
      InitialGrid(FreeColumns(count), slotMap, count);
    } else {
      var i := |classes| - 1;
      var init := classes[..i];
      assert forall j :: 0 <= j < |init| ==> init[j] == classes[j];
      GridOfIsGrid(init, slotMap, count);
      if InGrid(classes[i], count) {
        assert DayInRange(classes[i].day);
        PlaceKeepsGrid(GridOf(init, slotMap, count), classes, i, slotMap, count);
      } else {
        SkipKeepsGrid(GridOf(init, slotMap, count), classes, i, slotMap, count);
      }
      assert classes[..i + 1] == classes;
    }
  }

  /**
   * Places each in-grid class at its day and period, replacing what was
   * there, and counts it for its faculty.  Fails on an in-grid class whose
   * day has no row.
   */
  method FillGrid(classes: seq<ScheduledClass>, slotMap: map<int, (Minutes, Minutes)>, count: int)
    returns (ok: bool, tempGrid: map<int, map<int, Cell>>, hours: map<FacultyId, nat>)
    ensures ok <==> !HasBadDay(classes, count)
    ensures ok ==> IsGrid(tempGrid, classes, slotMap, count)
    ensures ok ==> hours == Hours(classes, count)
  {
    var free := FreeColumns(count);
    tempGrid := map[1 := free, 2 := free, 3 := free, 4 := free, 5 := free, 6 := free];
    hours := map[];
    var i := 0;
    assert classes[..i] == [];
    while i < |classes|
      invariant 0 <= i <= |classes|
      invariant tempGrid == GridOf(classes[..i], slotMap, count)
      invariant !HasBadDay(classes[..i], count)
      invariant hours == Hours(classes[..i], count)
    {
      var sClass := classes[i];
      HoursStep(classes, i, count);
      assert classes[..i + 1][..i] == classes[..i];
      if 1 <= sClass.period <= count {
        if !(1 <= sClass.day <= 6) {
          assert InGrid(classes[i], count) && !DayInRange(classes[i].day);
          return false, tempGrid, hours;
        }
        tempGrid := tempGrid[sClass.day := tempGrid[sClass.day][sClass.period := CellOf(sClass, slotMap)]];
        hours := Tally(hours, sClass.faculty);
      }
      NoBadDayStep(classes, i, count);
      i := i + 1;
    }
    assert classes[..i] == classes;
    GridOfIsGrid(classes, slotMap, count);
    ok := true;
  }

  lemma CellsSnoc(cells: seq<Cell>, cell: Cell, k: int, classes: seq<ScheduledClass>,
                  slotMap: map<int, (Minutes, Minutes)>, day: int, slots: seq<Slot>)
    requires 0 <= k < |slots| && |cells| == k
    requires forall j :: 0 <= j < k ==> cells[j] == ExpectedCell(classes, slotMap, day, slots[j])
    requires cell == ExpectedCell(classes, slotMap, day, slots[k])
    ensures forall j :: 0 <= j < k + 1 ==> (cells + [cell])[j] == ExpectedCell(classes, slotMap, day, slots[j])
  {
  }

  /**
   * The cells of one day row: the grid's cell under a period, the break
   * itself under a break.  Fails on a period slot the grid has no column for.
   */
  method DayCells(slots: seq<Slot>, classes: seq<ScheduledClass>, gridRow: map<int, Cell>, count: int, day: int)
    returns (ok: bool, cells: seq<Cell>)
    requires forall q :: q in gridRow <==> 1 <= q <= count
    requires forall q :: q in gridRow ==> gridRow[q] == GridCell(classes, PeriodSlotMap(slots), day, q)
    requires forall k :: 0 <= k < |slots| && slots[k].Period? ==> slots[k].index <= count
    ensures ok <==> !BadIndex(slots)
    ensures ok ==> |cells| == |slots|
    ensures ok ==> forall k :: 0 <= k < |slots| ==> cells[k] == ExpectedCell(classes, PeriodSlotMap(slots), day, slots[k])
  {
    ghost var slotMap := PeriodSlotMap(slots);
    cells := [];
    var k := 0;
    while k < |slots|
      invariant 0 <= k <= |slots|
      invariant |cells| == k
      invariant forall j :: 0 <= j < k ==> cells[j] == ExpectedCell(classes, slotMap, day, slots[j])
      invariant forall j :: 0 <= j < k && slots[j].Period? ==> slots[j].index >= 1
    {
      var slot := slots[k];
      var cell: Cell;
      if slot.Period? {
        if slot.index !in gridRow {
          assert slots[k].Period? && slots[k].index < 1;
          return false, cells;
        }
        cell := gridRow[slot.index];
      } else {
        cell := BreakCell(slot.caption, slot.start, slot.end);
      }
      assert cell == ExpectedCell(classes, slotMap, day, slots[k]);
      CellsSnoc(cells, cell, k, classes, slotMap, day, slots);
      cells := cells + [cell];
      k := k + 1;
    }
    ok := true;
  }

  /**
   * One row per day, Monday to Saturday.  Fails on a period slot the grid
   * has no column for.
   */
  method LayOutRows(slots: seq<Slot>, classes: seq<ScheduledClass>, tempGrid: map<int, map<int, Cell>>, count: int)
    returns (ok: bool, rows: seq<Row>)
    requires IsGrid(tempGrid, classes, PeriodSlotMap(slots), count)
    requires forall k :: 0 <= k < |slots| && slots[k].Period? ==> slots[k].index <= count
    ensures ok <==> !BadIndex(slots)
    ensures ok ==> ShowsGrid(rows, slots, classes)
  {
    rows := [];
    var day := 1;
    while day <= 6
      invariant 1 <= day <= 7
      invariant |rows| == day - 1
      invariant day > 1 ==> !BadIndex(slots)
      invariant forall e :: 0 <= e < |rows| ==>
        rows[e].dayName == DayNames[e] &&
        |rows[e].cells| == |slots| &&
        forall k :: 0 <= k < |slots| ==> rows[e].cells[k] == ExpectedCell(classes, PeriodSlotMap(slots), e + 1, slots[k])
    {
      var cellsOk, cells := DayCells(slots, classes, tempGrid[day], count, day);
      if !cellsOk {
        return false, rows;
      }
      rows := rows + [Row(DayNames[day - 1], cells)];
      day := day + 1;
    }
    ok := true;
  }

  /**
   * The table rows and the tally for a section's classes.  Fails (ok is
   * false) when an in-grid class has a day outside 1..6 or a period slot
   * has no grid column.
   */
  method BuildRows(slots: seq<Slot>, classes: seq<ScheduledClass>)
    returns (ok: bool, rows: seq<Row>, hours: map<FacultyId, nat>)
    ensures ok <==> !HasBadDay(classes, ActualPeriodCount(slots)) && !BadIndex(slots)
    ensures ok ==> ShowsGrid(rows, slots, classes)
    ensures ok ==> hours == Hours(classes, ActualPeriodCount(slots))
  {
    var periodSlotMap := PeriodSlotMap(slots);
    var actualPeriodCount := ActualPeriodCount(slots);
    var tempGrid;
    ok, tempGrid, hours := FillGrid(classes, periodSlotMap, actualPeriodCount);
    rows := [];
    if !ok {
      return;
    }
    IndicesBelowCount(slots);
    ok, rows := LayOutRows(slots, classes, tempGrid, actualPeriodCount);
  }

  function Headers(slots: seq<Slot>): (r: seq<Header>)
    ensures |r| == |slots|
    ensures forall k :: 0 <= k < |slots| ==>
      r[k].caption == slots[k].caption && r[k].startTime == slots[k].start && r[k].endTime == slots[k].end
  {
    seq(|slots|, k requires 0 <= k < |slots| => Header(slots[k].caption, slots[k].start, slots[k].end))
  }

  /**
   * The page for the selected section, over the standard day (eight
   * 50-minute periods from 10:00, a 60-minute lunch break after period 4).
   * None stands for the request failing on a class whose day has no row.
   */
  method ViewTimetable(sections: seq<Section>, table: ScheduleTable, selected: Option<SectionId>)
    returns (periodTimes: seq<Slot>, context: Option<TimetableContext>)
    ensures LaidOut(periodTimes, 600, 50, Plan(map[4 := 60], 8))
    ensures selected.None? ==> context == Some(TimetableContext(sections, None, [], Headers(periodTimes), map[]))
    ensures selected.Some? ==>
      var classes := SectionClasses(table.rows, selected.value);
      (context.None? <==> HasBadDay(classes, 8)) &&
      (context.Some? ==>
        context.value.sections == sections &&
        context.value.selectedSection == selected &&
        context.value.periodHeaders == Headers(periodTimes) &&
        ShowsGrid(context.value.tableRows, periodTimes, classes) &&
        context.value.facultyHours == Hours(classes, 8))
  {
    periodTimes := GenerateSlots(HoursMinutes(10, 0), 50, 8, map[4 := 60]);
    GeneratedDayColumns(periodTimes, 600, 50, map[4 := 60], 8);
    if selected.None? {
      return periodTimes, Some(TimetableContext(sections, None, [], Headers(periodTimes), map[]));
    }
    var classes := SectionClasses(table.rows, selected.value);
    var ok, rows, hours := BuildRows(periodTimes, classes);
    if !ok {
      return periodTimes, None;
    }
    context := Some(TimetableContext(sections, selected, rows, Headers(periodTimes), hours));
  }
}
