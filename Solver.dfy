/**
 * The parts of TimetableORToolsSolver (scheduler_app/scheduler_service.py)
 * that do not depend on the constraint solver: the requirement lookup, the
 * faculty workload bounds it posts, and the materialisation of a solved
 * assignment into ScheduledClass rows.  The solver's answer is an input: a
 * truth value per decision variable.
 */
module Solver {
  import opened Common
  import opened Clock
  import opened Catalog
  import PeriodTimes

  /** One class to place: who teaches what to whom, and of which kind. */
  datatype Requirement = Requirement(
    id: int,
    faculty: FacultyId,
    subject: SubjectId,
    section: SectionId,
    classType: ClassType)

  /** The key of a decision variable: requirement, day, period and room. */
  datatype VarKey = VarKey(reqId: int, day: int, period: nat, room: RoomId)

  /** The solver's value for every decision variable. */
  type Solution = map<VarKey, bool>

  // ---------------------------------------------------------------------
  // Requirement lookup
  // ---------------------------------------------------------------------

  /** Requirement k is the last one in `reqs` with its id. */
  ghost predicate LastWithId(reqs: seq<Requirement>, k: int)
    requires 0 <= k < |reqs|
  {
    forall j :: k < j < |reqs| ==> reqs[j].id != reqs[k].id
  }

  /**
   * The requirements keyed by id.  Every id of `reqs` is a key, and each
   * key maps to a requirement of `reqs` with that id.
   */
  function RequirementLookup(reqs: seq<Requirement>): (m: map<int, Requirement>)
    ensures forall k :: 0 <= k < |reqs| ==> reqs[k].id in m
    ensures forall id :: id in m ==> m[id].id == id && m[id] in reqs
  {
    if reqs == [] then map[]
    else
      var r := reqs[|reqs| - 1];
      var m := RequirementLookup(reqs[..|reqs| - 1]);
      assert forall k :: 0 <= k < |reqs| - 1 ==> reqs[..|reqs| - 1][k] == reqs[k];
      m[r.id := r]
  }

  /** On duplicate ids the last requirement wins. */
  lemma {:induction false} LookupLastWins(reqs: seq<Requirement>, k: int)
    requires 0 <= k < |reqs| && LastWithId(reqs, k)
    ensures RequirementLookup(reqs)[reqs[k].id] == reqs[k]
    decreases |reqs|
  {
    var init := reqs[..|reqs| - 1];
    var r := reqs[|reqs| - 1];
    assert RequirementLookup(reqs) == RequirementLookup(init)[r.id := r];
    if k < |init| {
      assert init[k] == reqs[k];
      assert r.id != reqs[k].id;
      forall j | k < j < |init| ensures init[j].id != init[k].id {
        assert init[j] == reqs[j];
      }
      LookupLastWins(init, k);
    }
  }

  // ---------------------------------------------------------------------
  // Faculty workload bounds
  // ---------------------------------------------------------------------

  /** The largest weekly load used when a faculty's maximum is left at 0. */
  const UnboundedHours: nat := 1000

  /** The lower bound posted for a faculty: its minimum, 0 when unset. */
  function EffectiveMinHours(f: Faculty): (h: nat)
    ensures h == f.minHoursPerWeek
  {
    if f.minHoursPerWeek == 0 then 0 else f.minHoursPerWeek
  }

  /** The upper bound posted for a faculty: its maximum, or 1000 when it is 0. */
  function EffectiveMaxHours(f: Faculty): (h: nat)
    ensures h > 0
    ensures f.maxHoursPerWeek > 0 ==> h == f.maxHoursPerWeek
    ensures f.maxHoursPerWeek == 0 ==> h == UnboundedHours
  {
    if f.maxHoursPerWeek == 0 then UnboundedHours else f.maxHoursPerWeek
  }

  /** A faculty created with the default hours is bounded only by 0..1000. */
  lemma DefaultFacultyBounds(id: FacultyId, name: string)
    ensures EffectiveMinHours(NewFaculty(id, name)) == 0
    ensures EffectiveMaxHours(NewFaculty(id, name)) == UnboundedHours
  {
  }

  /** Every variable names a requirement the lookup knows. */
  predicate KnownRequirements(vars: seq<VarKey>, lookup: map<int, Requirement>)
  {
    forall i :: 0 <= i < |vars| ==> vars[i].reqId in lookup
  }

  /** The variables whose requirement is taught by faculty `f`, in order. */
  function AssignedVars(vars: seq<VarKey>, lookup: map<int, Requirement>, f: FacultyId): (r: seq<VarKey>)
    requires KnownRequirements(vars, lookup)
    ensures forall x :: x in r <==> x in vars && lookup[x.reqId].faculty == f
  {
    if vars == [] then []
    else
      var rest := AssignedVars(vars[..|vars| - 1], lookup, f);
      var x := vars[|vars| - 1];
      assert vars == vars[..|vars| - 1] + [x];
      if lookup[x.reqId].faculty == f then rest + [x] else rest
  }

  /** The number of variables set true. */
  function CountTrue(vars: seq<VarKey>, value: Solution): (n: nat)
    requires forall x :: x in vars ==> x in value
    ensures n <= |vars|
  {
    if vars == [] then 0
    else CountTrue(vars[..|vars| - 1], value) + (if value[vars[|vars| - 1]] then 1 else 0)
  }

  /** The linear constraint min <= sum(vars) <= max posted for one faculty. */
  datatype WorkloadBound = WorkloadBound(faculty: FacultyId, vars: seq<VarKey>, minHours: nat, maxHours: nat)

  /** The bounds posted for `faculties` in order; one whose list is empty gets none. */
  function Bounds(faculties: seq<Faculty>, vars: seq<VarKey>, lookup: map<int, Requirement>): (r: seq<WorkloadBound>)
    requires KnownRequirements(vars, lookup)
    ensures |r| <= |faculties|
  {
    if faculties == [] then []
    else
      var f := faculties[|faculties| - 1];
      var taught := AssignedVars(vars, lookup, f.id);
      Bounds(faculties[..|faculties| - 1], vars, lookup)
      + (if taught == [] then [] else [WorkloadBound(f.id, taught, EffectiveMinHours(f), EffectiveMaxHours(f))])
  }

  /** The assignment values every variable of the bound and meets both limits. */
  predicate Holds(b: WorkloadBound, value: Solution)
  {
    (forall x :: x in b.vars ==> x in value) && b.minHours <= CountTrue(b.vars, value) <= b.maxHours
  }

  ghost predicate AllHold(bs: seq<WorkloadBound>, value: Solution)
  {
    forall i :: 0 <= i < |bs| ==> Holds(bs[i], value)
  }

  /** Faculty `f`'s true-variable count lies in its effective bounds, or it has no variables. */
  ghost predicate WithinWorkload(f: Faculty, vars: seq<VarKey>, lookup: map<int, Requirement>, value: Solution)
    requires KnownRequirements(vars, lookup)
    requires forall x :: x in vars ==> x in value
  {
    var taught := AssignedVars(vars, lookup, f.id);
    taught != [] ==> EffectiveMinHours(f) <= CountTrue(taught, value) <= EffectiveMaxHours(f)
  }

  ghost predicate AllWithin(faculties: seq<Faculty>, vars: seq<VarKey>, lookup: map<int, Requirement>, value: Solution)
    requires KnownRequirements(vars, lookup)
    requires forall x :: x in vars ==> x in value
  {
    forall i :: 0 <= i < |faculties| ==> WithinWorkload(faculties[i], vars, lookup, value)
  }

  lemma AllHoldAppend(a: seq<WorkloadBound>, b: seq<WorkloadBound>, value: Solution)
    ensures AllHold(a + b, value) <==> AllHold(a, value) && AllHold(b, value)
  {
    if AllHold(a, value) && AllHold(b, value) {
      forall i | 0 <= i < |a + b| ensures Holds((a + b)[i], value) {
        if i >= |a| {
          assert (a + b)[i] == b[i - |a|];
        }
      }
    }
    if AllHold(a + b, value) {
      forall i | 0 <= i < |a| ensures Holds(a[i], value) {
        assert (a + b)[i] == a[i];
      }
      forall i | 0 <= i < |b| ensures Holds(b[i], value) {
        assert (a + b)[|a| + i] == b[i];
      }
    }
  }

  /** The bound posted for the last faculty holds exactly when that faculty is within its workload. */
  lemma LastBoundHolds(f: Faculty, vars: seq<VarKey>, lookup: map<int, Requirement>, value: Solution)
    requires KnownRequirements(vars, lookup)
    requires forall x :: x in vars ==> x in value
    ensures var taught := AssignedVars(vars, lookup, f.id);
      AllHold(if taught == [] then [] else [WorkloadBound(f.id, taught, EffectiveMinHours(f), EffectiveMaxHours(f))], value)
      <==> WithinWorkload(f, vars, lookup, value)
  {
    var taught := AssignedVars(vars, lookup, f.id);
    if taught != [] {
      var w := WorkloadBound(f.id, taught, EffectiveMinHours(f), EffectiveMaxHours(f));
      if Holds(w, value) {
        forall i | 0 <= i < 1 ensures Holds([w][i], value) {
          assert [w][i] == w;
        }
      }
      if AllHold([w], value) {
        assert Holds([w][0], value);
      }
    }
  }

  /**
   * An assignment satisfies every posted workload bound exactly when each
   * faculty with at least one variable has a true count within its
   * effective [min, max]; a faculty with no variables is unconstrained.
   */
  lemma {:induction false} BoundsHoldIff(faculties: seq<Faculty>, vars: seq<VarKey>,
                                         lookup: map<int, Requirement>, value: Solution)
    requires KnownRequirements(vars, lookup)
    requires forall x :: x in vars ==> x in value
    ensures AllHold(Bounds(faculties, vars, lookup), value) <==> AllWithin(faculties, vars, lookup, value)
    decreases |faculties|
  {
    if faculties != [] {
      var init := faculties[..|faculties| - 1];
      var f := faculties[|faculties| - 1];
      BoundsHoldIff(init, vars, lookup, value);
      var taught := AssignedVars(vars, lookup, f.id);
      var extra := if taught == [] then [] else [WorkloadBound(f.id, taught, EffectiveMinHours(f), EffectiveMaxHours(f))];
      assert Bounds(faculties, vars, lookup) == Bounds(init, vars, lookup) + extra;
      AllHoldAppend(Bounds(init, vars, lookup), extra, value);
      LastBoundHolds(f, vars, lookup, value);
      assert forall i :: 0 <= i < |init| ==> init[i] == faculties[i];
      assert AllWithin(faculties, vars, lookup, value) <==>
             AllWithin(init, vars, lookup, value) && WithinWorkload(f, vars, lookup, value);
    }
  }

  /** Every posted bound is for a faculty that has variables, with its effective limits. */
  lemma {:induction false} BoundsOnlyForBusyFaculty(faculties: seq<Faculty>, vars: seq<VarKey>,
                                                    lookup: map<int, Requirement>)
    requires KnownRequirements(vars, lookup)
    ensures forall b :: b in Bounds(faculties, vars, lookup) ==>
      b.vars != [] &&
      exists i :: 0 <= i < |faculties| && faculties[i].id == b.faculty &&
        b.vars == AssignedVars(vars, lookup, b.faculty) &&
        b.minHours == EffectiveMinHours(faculties[i]) && b.maxHours == EffectiveMaxHours(faculties[i])
    decreases |faculties|
  {
    if faculties != [] {
      var init := faculties[..|faculties| - 1];
      BoundsOnlyForBusyFaculty(init, vars, lookup);
      forall b | b in Bounds(faculties, vars, lookup)
        ensures exists i :: (0 <= i < |faculties| && faculties[i].id == b.faculty &&
                             b.vars == AssignedVars(vars, lookup, b.faculty) &&
                             b.minHours == EffectiveMinHours(faculties[i]) &&
                             b.maxHours == EffectiveMaxHours(faculties[i]))
      {
        if b in Bounds(init, vars, lookup) {
          var i :| 0 <= i < |init| && init[i].id == b.faculty &&
            b.vars == AssignedVars(vars, lookup, b.faculty) &&
            b.minHours == EffectiveMinHours(init[i]) && b.maxHours == EffectiveMaxHours(init[i]);
          assert faculties[i] == init[i];
        } else {
          assert faculties[|faculties| - 1].id == b.faculty;
        }
      }
    }
  }

  // ---------------------------------------------------------------------
  // Result materialisation
  // ---------------------------------------------------------------------

  datatype SaveError = UnknownRequirement(reqId: int) | UnknownPeriod(period: nat)

  /** The row saved for a true variable. */
  function Record(key: VarKey, req: Requirement, times: (Minutes, Minutes)): (c: ScheduledClass)
    ensures c.day == key.day && c.period == key.period && c.classroom == key.room
    ensures c.faculty == req.faculty && c.subject == req.subject && c.section == req.section
    ensures c.classType == req.classType
    ensures c.startTime == Some(times.0) && c.endTime == Some(times.1)
  {
    ScheduledClass(key.day, key.period, req.faculty, req.subject, req.section, key.room,
                   req.classType, Some(times.0), Some(times.1))
  }

  /** The true variables, in order. */
  function TrueKeys(vars: seq<VarKey>, value: Solution): (r: seq<VarKey>)
    requires forall x :: x in vars ==> x in value
    ensures |r| == CountTrue(vars, value)
    ensures forall x :: x in r <==> x in vars && value[x]
  {
    if vars == [] then []
    else
      var x := vars[|vars| - 1];
      assert vars == vars[..|vars| - 1] + [x];
      TrueKeys(vars[..|vars| - 1], value) + (if value[x] then [x] else [])
  }

  /**
   * The rows for a solved assignment, in variable order, or the first
   * lookup that fails: a true variable whose requirement or period is unknown.
   */
  function Materialize(vars: seq<VarKey>, value: Solution, lookup: map<int, Requirement>,
                       periodTimes: PeriodTimes.PeriodTable): (r: Result<seq<ScheduledClass>, SaveError>)
    requires forall x :: x in vars ==> x in value
    ensures r.Err? && r.error.UnknownRequirement? ==> r.error.reqId !in lookup
    ensures r.Err? && r.error.UnknownPeriod? ==> r.error.period !in periodTimes
  {
    if vars == [] then Ok([])
    else
      var x := vars[|vars| - 1];
      match Materialize(vars[..|vars| - 1], value, lookup, periodTimes)
      case Err(e) => Err(e)
      case Ok(rows) =>
        if !value[x] then Ok(rows)
        else if x.reqId !in lookup then Err(UnknownRequirement(x.reqId))
        else if x.period !in periodTimes then Err(UnknownPeriod(x.period))
        else Ok(rows + [Record(x, lookup[x.reqId], periodTimes[x.period])])
  }

  /** Every true variable can be resolved: its requirement and its period are known. */
  ghost predicate Resolvable(vars: seq<VarKey>, value: Solution, lookup: map<int, Requirement>,
                             periodTimes: PeriodTimes.PeriodTable)
    requires forall x :: x in vars ==> x in value
  {
    forall x :: x in vars && value[x] ==> x.reqId in lookup && x.period in periodTimes
  }

  /** Materialisation succeeds exactly when every true variable resolves. */
  lemma {:induction false} MaterializeOkIff(vars: seq<VarKey>, value: Solution, lookup: map<int, Requirement>,
                                            periodTimes: PeriodTimes.PeriodTable)
    requires forall x :: x in vars ==> x in value
    ensures Materialize(vars, value, lookup, periodTimes).Ok? <==> Resolvable(vars, value, lookup, periodTimes)
    decreases |vars|
  {
    if vars != [] {
      var init := vars[..|vars| - 1];
      var x := vars[|vars| - 1];
      assert vars == init + [x];
      MaterializeOkIff(init, value, lookup, periodTimes);
    }
  }

  /** Row j is the record of key j, for every j. */
  ghost predicate RowsMatch(rows: seq<ScheduledClass>, keys: seq<VarKey>, lookup: map<int, Requirement>,
                            periodTimes: PeriodTimes.PeriodTable)
  {
    |rows| == |keys| &&
    forall j :: 0 <= j < |rows| ==>
      keys[j].reqId in lookup && keys[j].period in periodTimes &&
      rows[j] == Record(keys[j], lookup[keys[j].reqId], periodTimes[keys[j].period])
  }

  lemma RowsMatchAppend(rows: seq<ScheduledClass>, keys: seq<VarKey>, row: ScheduledClass, key: VarKey,
                        lookup: map<int, Requirement>, periodTimes: PeriodTimes.PeriodTable)
    requires RowsMatch(rows, keys, lookup, periodTimes)
    requires key.reqId in lookup && key.period in periodTimes
    requires row == Record(key, lookup[key.reqId], periodTimes[key.period])
    ensures RowsMatch(rows + [row], keys + [key], lookup, periodTimes)
  {
  }

  /**
   * A successful materialisation emits one row per true variable and none
   * for the others: row j is the record of the j-th true variable.
   */
  lemma {:induction false} MaterializeRows(vars: seq<VarKey>, value: Solution, lookup: map<int, Requirement>,
                                           periodTimes: PeriodTimes.PeriodTable)
    requires forall x :: x in vars ==> x in value
    requires Materialize(vars, value, lookup, periodTimes).Ok?
    ensures |Materialize(vars, value, lookup, periodTimes).value| == CountTrue(vars, value)
    ensures RowsMatch(Materialize(vars, value, lookup, periodTimes).value, TrueKeys(vars, value), lookup, periodTimes)
    decreases |vars|
  {
    if vars != [] {
      var init := vars[..|vars| - 1];
      var x := vars[|vars| - 1];
      assert vars == init + [x];
      assert Materialize(init, value, lookup, periodTimes).Ok?;
      MaterializeRows(init, value, lookup, periodTimes);
      var rows := Materialize(init, value, lookup, periodTimes).value;
      var keys := TrueKeys(init, value);
      if value[x] {
        RowsMatchAppend(rows, keys, Record(x, lookup[x.reqId], periodTimes[x.period]), x, lookup, periodTimes);
      }
    }
  }

  /** No two true variables at one slot share a room, a faculty or a section. */
  ghost predicate ConflictFree(vars: seq<VarKey>, value: Solution, lookup: map<int, Requirement>)
    requires forall x :: x in vars ==> x in value
  {
    forall x, y ::
      (x in vars && y in vars && x != y && value[x] && value[y] &&
       x.day == y.day && x.period == y.period && x.reqId in lookup && y.reqId in lookup) ==>
        x.room != y.room &&
        lookup[x.reqId].faculty != lookup[y.reqId].faculty &&
        lookup[x.reqId].section != lookup[y.reqId].section
  }

  lemma {:induction false} TrueKeysDistinct(vars: seq<VarKey>, value: Solution)
    requires forall x :: x in vars ==> x in value
    requires Distinct(vars)
    ensures Distinct(TrueKeys(vars, value))
    decreases |vars|
  {
    if vars != [] {
      var init := vars[..|vars| - 1];
      var x := vars[|vars| - 1];
      assert vars == init + [x];
      assert Distinct(init);
      TrueKeysDistinct(init, value);
      assert x !in init;
    }
  }

  /**
   * A conflict-free assignment over distinct variables materialises into
   * rows that keep all three ScheduledClass uniqueness rules, so the bulk
   * insert is accepted.
   */
  lemma MaterializeNoDoubleBooking(vars: seq<VarKey>, value: Solution, lookup: map<int, Requirement>,
                                   periodTimes: PeriodTimes.PeriodTable)
    requires forall x :: x in vars ==> x in value
    requires Distinct(vars)
    requires ConflictFree(vars, value, lookup)
    requires Materialize(vars, value, lookup, periodTimes).Ok?
    ensures NoDoubleBooking(Materialize(vars, value, lookup, periodTimes).value)
  {
    MaterializeRows(vars, value, lookup, periodTimes);
    TrueKeysDistinct(vars, value);
    var rows := Materialize(vars, value, lookup, periodTimes).value;
    var keys := TrueKeys(vars, value);
    forall i, j | 0 <= i < j < |rows| ensures !Clashes(rows[i], rows[j]) {
      assert keys[i] in keys && keys[j] in keys;
      assert keys[i] != keys[j];
    }
  }

  // ---------------------------------------------------------------------
  // The solver object
  // ---------------------------------------------------------------------

  datatype SaveOutcome = Saved(count: nat) | LookupFailed(error: SaveError) | IntegrityError

  /** The solver's state, as its fields hold it between the stages. */
  class TimetableSolver {
    const allSections: seq<Section>
    const allClassrooms: seq<Classroom>
    const allFaculties: seq<Faculty>
    /** The decision-variable keys, in the order the variables dict lists them. */
    var variables: seq<VarKey>
    const periodsCount: int
    const periodTimes: PeriodTimes.PeriodTable
    var classRequirements: seq<Requirement>
    var classRequirementsLookup: map<int, Requirement>
    /** The workload constraints posted to the model so far. */
    var constraints: seq<WorkloadBound>

    /** The variables are the keys of a dict, so none repeats. */
    ghost predicate Valid()
      reads this
    {
      Distinct(variables)
    }

    /** Takes the catalog snapshot and builds the period-time table. */
    constructor (startTime: Minutes, periodDuration: int, periodsPerDay: int,
                 sections: seq<Section>, classrooms: seq<Classroom>, faculties: seq<Faculty>)
      ensures allSections == sections && allClassrooms == classrooms && allFaculties == faculties
      ensures variables == [] && constraints == []
      ensures periodsCount == periodsPerDay
      ensures periodTimes == PeriodTimes.Table(startTime, periodDuration, periodsPerDay)
      ensures classRequirements == [] && classRequirementsLookup == map[]
      ensures Valid()
    {
      allSections := sections;
      allClassrooms := classrooms;
      allFaculties := faculties;
      variables := [];
      constraints := [];
      periodsCount := periodsPerDay;
      var table := PeriodTimes.GeneratePeriodTimes(startTime, periodDuration, periodsPerDay);
      periodTimes := table;
      classRequirements := [];
      classRequirementsLookup := map[];
    }

    /** Builds the lookup from the requirement list (the list itself is not derived). */
    method PrepareClassRequirements()
      requires Valid()
      modifies this
      ensures Valid()
      ensures classRequirementsLookup == RequirementLookup(classRequirements)
      ensures classRequirements == old(classRequirements) && variables == old(variables)
      ensures constraints == old(constraints)
    {
      classRequirementsLookup := RequirementLookup(classRequirements);
    }

    /**
     * Posts one workload bound per faculty that has variables.  Looking up
     * a variable with an unknown requirement fails on the first faculty,
     * before any bound is posted.
     */
    method ApplyFacultyHourConstraints() returns (ok: bool)
      requires Valid()
      modifies this
      ensures Valid()
      ensures ok <==> allFaculties == [] || KnownRequirements(variables, classRequirementsLookup)
      ensures ok && KnownRequirements(variables, classRequirementsLookup) ==>
        constraints == old(constraints) + Bounds(allFaculties, variables, classRequirementsLookup)
      ensures !ok || allFaculties == [] ==> constraints == old(constraints)
      ensures variables == old(variables) && classRequirementsLookup == old(classRequirementsLookup)
      ensures classRequirements == old(classRequirements)
    {
      if allFaculties == [] {
        return true;
      }
      ok := AllKnown(variables, classRequirementsLookup);
      if !ok {
        return;
      }
      var posted: seq<WorkloadBound> := [];
      var i := 0;
      while i < |allFaculties|
        invariant 0 <= i <= |allFaculties|
        invariant posted == Bounds(allFaculties[..i], variables, classRequirementsLookup)
      {
        var faculty := allFaculties[i];
        var taught := AssignedVars(variables, classRequirementsLookup, faculty.id);
        assert allFaculties[..i + 1][..i] == allFaculties[..i];
        if taught != [] {
          posted := posted + [WorkloadBound(faculty.id, taught, EffectiveMinHours(faculty), EffectiveMaxHours(faculty))];
        }
        i := i + 1;
      }
      assert allFaculties[..i] == allFaculties;
      constraints := constraints + posted;
    }

    /** All constraint stages; only the workload bounds exist. */
    method ApplyConstraints() returns (ok: bool)
      requires Valid()
      modifies this
      ensures Valid()
      ensures ok <==> allFaculties == [] || KnownRequirements(variables, classRequirementsLookup)
      ensures ok && KnownRequirements(variables, classRequirementsLookup) ==>
        constraints == old(constraints) + Bounds(allFaculties, variables, classRequirementsLookup)
      ensures !ok || allFaculties == [] ==> constraints == old(constraints)
      ensures variables == old(variables) && classRequirementsLookup == old(classRequirementsLookup)
      ensures classRequirements == old(classRequirements)
    {
      ok := ApplyFacultyHourConstraints();
    }

    /**
     * Replaces the stored schedule by the rows of the solved assignment.
     * The old rows are deleted first; a failed lookup or a rejected insert
     * afterwards leaves the table empty.
     */
    method SaveResults(table: ScheduleTable, value: Solution) returns (outcome: SaveOutcome)
      requires Valid()
      requires forall x :: x in variables ==> x in value
      modifies table
      ensures table.Valid()
      ensures var lookup := RequirementLookup(classRequirements);
        match Materialize(variables, value, lookup, periodTimes)
        case Err(e) => outcome == LookupFailed(e) && table.rows == []
        case Ok(rows) =>
          if NoDoubleBooking(rows) then outcome == Saved(|rows|) && table.rows == rows
          else outcome == IntegrityError && table.rows == []
      ensures ConflictFree(variables, value, RequirementLookup(classRequirements)) ==> !outcome.IntegrityError?
    {
      table.DeleteAll();
      var newClasses: seq<ScheduledClass> := [];
      var reqLookup := RequirementLookup(classRequirements);
      var i := 0;
      while i < |variables|
        invariant 0 <= i <= |variables|
        invariant table.Valid() && table.rows == []
        invariant Materialize(variables[..i], value, reqLookup, periodTimes) == Ok(newClasses)
      {
        var key := variables[i];
        assert variables[..i + 1][..i] == variables[..i];
        if value[key] {
          if key.reqId !in reqLookup {
            assert variables[..i + 1][i] == key;
            MaterializeErrSticks(variables, i + 1, value, reqLookup, periodTimes);
            return LookupFailed(UnknownRequirement(key.reqId));
          }
          var reqData := reqLookup[key.reqId];
          if key.period !in periodTimes {
            MaterializeErrSticks(variables, i + 1, value, reqLookup, periodTimes);
            return LookupFailed(UnknownPeriod(key.period));
          }
          newClasses := newClasses + [Record(key, reqData, periodTimes[key.period])];
        }
        i := i + 1;
      }
      assert variables[..i] == variables;
      if ConflictFree(variables, value, reqLookup) {
        MaterializeNoDoubleBooking(variables, value, reqLookup, periodTimes);
      }
      var ok := table.BulkCreate(newClasses);
      assert table.rows == [] + newClasses ==> table.rows == newClasses;
      outcome := if ok then Saved(|newClasses|) else IntegrityError;
    }
  }

  /** Checks that every variable's requirement is in the lookup. */
  method AllKnown(vars: seq<VarKey>, lookup: map<int, Requirement>) returns (ok: bool)
    ensures ok == KnownRequirements(vars, lookup)
  {
    var i := 0;
    while i < |vars|
      invariant 0 <= i <= |vars|
      invariant KnownRequirements(vars[..i], lookup)
    {
      if vars[i].reqId !in lookup {
        return false;
      }
      i := i + 1;
    }
    assert vars[..i] == vars;
    return true;
  }

  /** The first failed lookup is the outcome of the whole materialisation. */
  lemma {:induction false} MaterializeErrSticks(vars: seq<VarKey>, n: nat, value: Solution,
                                                lookup: map<int, Requirement>, periodTimes: PeriodTimes.PeriodTable)
    requires n <= |vars|
    requires forall x :: x in vars ==> x in value
    requires Materialize(vars[..n], value, lookup, periodTimes).Err?
    ensures Materialize(vars, value, lookup, periodTimes) == Materialize(vars[..n], value, lookup, periodTimes)
    decreases |vars| - n
  {
    if n < |vars| {
      assert vars[..n + 1][..n] == vars[..n];
      MaterializeErrSticks(vars, n + 1, value, lookup, periodTimes);
    } else {
      assert vars[..n] == vars;
    }
  }
}
