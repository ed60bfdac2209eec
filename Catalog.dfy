/**
 * The catalog entities of scheduler_app/models.py, the validation rules the
 * models declare, and the ScheduledClass table with its uniqueness rules.
 */
module Catalog {
  import opened Common
  import opened Clock

  type FacultyId = int
  type SubjectId = int
  type SectionId = int
  type RoomId = int
  type OfferingId = int

  datatype Role = AssistantProfessor | AssociateProfessor | Professor

  datatype Faculty = Faculty(
    id: FacultyId,
    name: string,
    role: Role,
    minHoursPerWeek: nat,
    maxHoursPerWeek: nat)

  datatype Classroom = Classroom(id: RoomId, name: string, capacity: nat)

  datatype Section = Section(id: SectionId, name: string)

  datatype Subject = Subject(id: SubjectId, code: string, name: string)

  datatype CourseOffering = CourseOffering(
    subject: SubjectId,
    section: SectionId,
    requiredTheoryHours: nat,
    requiredTutorialHours: nat)

  datatype Responsibility = All | TheoryOnly | TutorialOnly

  /** `pk` is None for an assignment that has not been saved yet. */
  datatype FacultyAssignment = FacultyAssignment(
    pk: Option<int>,
    courseOffering: OfferingId,
    faculty: FacultyId,
    responsibility: Responsibility)

  datatype ClassType = Theory | Tutorial

  datatype ScheduledClass = ScheduledClass(
    day: int,
    period: nat,
    faculty: FacultyId,
    subject: SubjectId,
    section: SectionId,
    classroom: RoomId,
    classType: ClassType,
    startTime: Option<Minutes>,
    endTime: Option<Minutes>)

  // ---------------------------------------------------------------------
  // Field defaults
  // ---------------------------------------------------------------------

  /** A faculty member created with only the required fields. */
  function NewFaculty(id: FacultyId, name: string): (f: Faculty)
    ensures f.id == id && f.name == name
    ensures f.role == AssistantProfessor
    ensures f.minHoursPerWeek == 0 && f.maxHoursPerWeek == 0
  {
    Faculty(id, name, AssistantProfessor, 0, 0)
  }

  /** A classroom created with only its name. */
  function NewClassroom(id: RoomId, name: string): (c: Classroom)
    ensures c.id == id && c.name == name && c.capacity == 30
  {
    Classroom(id, name, 30)
  }

  /** A course offering created with only its subject and section. */
  function NewOffering(subject: SubjectId, section: SectionId): (o: CourseOffering)
    ensures o.subject == subject && o.section == section
    ensures o.requiredTheoryHours == 3 && o.requiredTutorialHours == 1
  {
    CourseOffering(subject, section, 3, 1)
  }

  /** An unsaved faculty assignment created without a responsibility. */
  function NewAssignment(offering: OfferingId, faculty: FacultyId): (a: FacultyAssignment)
    ensures a.pk == None && a.courseOffering == offering && a.faculty == faculty
    ensures a.responsibility == All
  {
    FacultyAssignment(None, offering, faculty, All)
  }

  // ---------------------------------------------------------------------
  // FacultyAssignment.clean: at most two distinct subjects per faculty
  // ---------------------------------------------------------------------

  /**
   * The subjects of the stored assignments of faculty `f`, leaving out the
   * row whose primary key is `excluded`.  Excluding pk None leaves out no
   * stored row, since every stored row has a key.
   */
  function SubjectsOf(offerings: map<OfferingId, CourseOffering>, rows: seq<FacultyAssignment>,
                      f: FacultyId, excluded: Option<int>): set<SubjectId>
  {
    set x | x in rows && x.faculty == f && x.pk != excluded && x.courseOffering in offerings
      :: offerings[x.courseOffering].subject
  }

  datatype CleanOutcome = Accepted | TooManySubjects(subjectCount: nat) | MissingOffering

  /**
   * The validation a FacultyAssignment runs before it is saved: a subject
   * that the faculty's other assignments do not already cover is refused
   * once those cover two subjects.
   */
  function Clean(offerings: map<OfferingId, CourseOffering>, rows: seq<FacultyAssignment>,
                 a: FacultyAssignment): (r: CleanOutcome)
    ensures r.MissingOffering? <==> a.courseOffering !in offerings
    ensures r.TooManySubjects? <==>
      a.courseOffering in offerings &&
      var others := SubjectsOf(offerings, rows, a.faculty, a.pk);
      offerings[a.courseOffering].subject !in others && |others| >= 2
    ensures r.TooManySubjects? ==> r.subjectCount == |SubjectsOf(offerings, rows, a.faculty, a.pk)|
  {
    if a.courseOffering !in offerings then MissingOffering
    else
      var others := SubjectsOf(offerings, rows, a.faculty, a.pk);
      var isNewSubject := offerings[a.courseOffering].subject !in others;
      if isNewSubject && |others| >= 2 then TooManySubjects(|others|) else Accepted
  }

  /** A subject the faculty already teaches elsewhere is always accepted. */
  lemma CleanAcceptsTaughtSubject(offerings: map<OfferingId, CourseOffering>,
                                  rows: seq<FacultyAssignment>, a: FacultyAssignment)
    requires a.courseOffering in offerings
    requires offerings[a.courseOffering].subject in SubjectsOf(offerings, rows, a.faculty, a.pk)
    ensures Clean(offerings, rows, a) == Accepted
  {
  }

  /**
   * Validation ignores the stored row with the assignment's own key: adding
   * that row to the table does not change the outcome.
   */
  lemma CleanIgnoresOwnRow(offerings: map<OfferingId, CourseOffering>,
                           rows: seq<FacultyAssignment>, a: FacultyAssignment, own: FacultyAssignment)
    requires a.pk.Some? && own.pk == a.pk
    ensures Clean(offerings, rows + [own], a) == Clean(offerings, rows, a)
  {
    assert SubjectsOf(offerings, rows + [own], a.faculty, a.pk) == SubjectsOf(offerings, rows, a.faculty, a.pk);
  }

  // ---------------------------------------------------------------------
  // The catalog: offerings and assignments, and the rules on them
  // ---------------------------------------------------------------------

  datatype Catalog = Catalog(
    offerings: map<OfferingId, CourseOffering>,
    assignments: seq<FacultyAssignment>,
    nextOfferingId: int,
    nextAssignmentPk: int)

  function EmptyCatalog(): (c: Catalog)
    ensures c.offerings == map[] && c.assignments == []
  {
    Catalog(map[], [], 1, 1)
  }

  /** All subjects faculty `f` is linked to across their assignments. */
  function FacultySubjects(c: Catalog, f: FacultyId): set<SubjectId>
  {
    SubjectsOf(c.offerings, c.assignments, f, None)
  }

  /** CourseOffering is unique per (subject, section). */
  ghost predicate UniqueOfferings(offerings: map<OfferingId, CourseOffering>)
  {
    forall i, j :: i in offerings && j in offerings && i != j ==>
      offerings[i].subject != offerings[j].subject || offerings[i].section != offerings[j].section
  }

  /** FacultyAssignment is unique per (course offering, faculty). */
  ghost predicate UniqueAssignments(rows: seq<FacultyAssignment>)
  {
    forall i, j :: 0 <= i < j < |rows| ==>
      rows[i].courseOffering != rows[j].courseOffering || rows[i].faculty != rows[j].faculty
  }

  /** Stored rows have distinct keys, below the next key to hand out. */
  ghost predicate KeysStored(rows: seq<FacultyAssignment>, next: int)
  {
    (forall i :: 0 <= i < |rows| ==> rows[i].pk.Some? && rows[i].pk.value < next) &&
    (forall i, j :: 0 <= i < j < |rows| ==> rows[i].pk != rows[j].pk)
  }

  ghost predicate Valid(c: Catalog)
  {
    && UniqueOfferings(c.offerings)
    && (forall i :: i in c.offerings ==> i < c.nextOfferingId)
    && KeysStored(c.assignments, c.nextAssignmentPk)
    && (forall x :: x in c.assignments ==> x.courseOffering in c.offerings)
    && UniqueAssignments(c.assignments)
    && (forall f :: |FacultySubjects(c, f)| <= 2)
  }

  lemma EmptyCatalogValid()
    ensures Valid(EmptyCatalog())
  {
  }

  datatype CatalogError =
    | DuplicateOffering
    | UnknownOffering
    | AssignmentRejected(tooManySubjects: Option<nat>, duplicate: bool)

  /** Saving a new course offering: refused when (subject, section) is taken. */
  function AddOffering(c: Catalog, o: CourseOffering): (r: Result<Catalog, CatalogError>)
    requires forall i :: i in c.offerings ==> i < c.nextOfferingId
    ensures r.Err? <==>
      exists i :: i in c.offerings && c.offerings[i].subject == o.subject && c.offerings[i].section == o.section
    ensures r.Ok? ==>
      r.value.assignments == c.assignments && c.nextOfferingId !in c.offerings && r.value.offerings == c.offerings[c.nextOfferingId := o]
  {
    if exists i :: i in c.offerings && c.offerings[i].subject == o.subject && c.offerings[i].section == o.section
    then Err(DuplicateOffering)
    else
      var id := c.nextOfferingId;
      Ok(Catalog(c.offerings[id := o], c.assignments, id + 1, c.nextAssignmentPk))
  }

  lemma AddOfferingPreservesValid(c: Catalog, o: CourseOffering)
    requires Valid(c)
    requires AddOffering(c, o).Ok?
    ensures Valid(AddOffering(c, o).value)
  {
    var c' := AddOffering(c, o).value;
    forall f ensures FacultySubjects(c', f) == FacultySubjects(c, f) {
    }
  }

  /** The position of the stored row whose key is `p`, if there is one. */
  function IndexOfPk(rows: seq<FacultyAssignment>, p: int): (r: Option<nat>)
    ensures r.Some? ==> r.value < |rows| && rows[r.value].pk == Some(p)
    ensures r.None? ==> forall i :: 0 <= i < |rows| ==> rows[i].pk != Some(p)
  {
    if rows == [] then None
    else if rows[0].pk == Some(p) then Some(0)
    else match IndexOfPk(rows[1..], p)
      case Some(k) => Some(k + 1)
      case None => None
  }

  /** Another stored row already links this offering to this faculty. */
  predicate ClashesWithPair(rows: seq<FacultyAssignment>, a: FacultyAssignment)
  {
    exists i :: 0 <= i < |rows| && rows[i].pk != a.pk &&
      rows[i].courseOffering == a.courseOffering && rows[i].faculty == a.faculty
  }

  /** The row as it is stored: an unsaved assignment receives the next key. */
  function StoredRow(c: Catalog, a: FacultyAssignment): (x: FacultyAssignment)
    ensures x.courseOffering == a.courseOffering && x.faculty == a.faculty
    ensures x.pk == if a.pk.None? then Some(c.nextAssignmentPk) else a.pk
  {
    if a.pk.None? then a.(pk := Some(c.nextAssignmentPk)) else a
  }

  /** Where the stored row goes: over the row with the same key, or at the end. */
  function StorePosition(c: Catalog, a: FacultyAssignment): (k: nat)
    ensures k <= |c.assignments|
    ensures k < |c.assignments| ==> a.pk.Some? && c.assignments[k].pk == a.pk
  {
    if a.pk.None? then |c.assignments|
    else match IndexOfPk(c.assignments, a.pk.value)
      case Some(k) => k
      case None => |c.assignments|
  }

  /** The assignment rows after storing `a`. */
  function Stored(c: Catalog, a: FacultyAssignment): (rows: seq<FacultyAssignment>)
    ensures var k := StorePosition(c, a);
      |rows| == (if k == |c.assignments| then |c.assignments| + 1 else |c.assignments|) &&
      rows[k] == StoredRow(c, a) &&
      forall i :: 0 <= i < |rows| && i != k ==> rows[i] == c.assignments[i]
  {
    var k := StorePosition(c, a);
    if k == |c.assignments| then c.assignments + [StoredRow(c, a)]
    else c.assignments[k := StoredRow(c, a)]
  }

  /**
   * Saving an assignment the way a validated form does: `clean` and the
   * (course offering, faculty) uniqueness rule are both checked, and either
   * failure refuses the save.  An unsaved assignment gets the next key; a
   * saved one updates the stored row with its key.
   */
  function SaveAssignment(c: Catalog, a: FacultyAssignment): (r: Result<Catalog, CatalogError>)
    ensures a.courseOffering !in c.offerings ==> r == Err(UnknownOffering)
    ensures r.Ok? <==>
      Clean(c.offerings, c.assignments, a) == Accepted && !ClashesWithPair(c.assignments, a)
    ensures r.Err? && a.courseOffering in c.offerings ==>
      r.error.AssignmentRejected? &&
      r.error.tooManySubjects.Some? == Clean(c.offerings, c.assignments, a).TooManySubjects? &&
      r.error.duplicate == ClashesWithPair(c.assignments, a)
    ensures r.Ok? ==> r.value.offerings == c.offerings && r.value.assignments == Stored(c, a)
  {
    var outcome := Clean(c.offerings, c.assignments, a);
    if outcome.MissingOffering? then Err(UnknownOffering)
    else
      var duplicate := ClashesWithPair(c.assignments, a);
      if outcome.TooManySubjects? then
        Err(AssignmentRejected(Some(outcome.subjectCount), duplicate))
      else if duplicate then
        Err(AssignmentRejected(None, true))
      else
        var next := if a.pk.Some? && a.pk.value >= c.nextAssignmentPk then a.pk.value + 1
                    else if a.pk.None? then c.nextAssignmentPk + 1 else c.nextAssignmentPk;
        Ok(Catalog(c.offerings, Stored(c, a), c.nextOfferingId, next))
  }

  /** A subset has no more elements than its superset. */
  lemma SubsetSize<T>(a: set<T>, b: set<T>)
    requires a <= b
    ensures |a| <= |b|
  {
    assert b == a + (b - a);
  }

  /** Leaving out one key can only shrink a faculty's subjects. */
  lemma OtherSubjectsBelowAll(c: Catalog, f: FacultyId, excluded: Option<int>)
    requires Valid(c)
    ensures SubjectsOf(c.offerings, c.assignments, f, excluded) <= FacultySubjects(c, f)
  {
  }

  /** Every row other than the stored one keeps its place and has another key. */
  lemma StoredOthers(c: Catalog, a: FacultyAssignment)
    requires Valid(c)
    ensures var k := StorePosition(c, a);
      forall i :: 0 <= i < |c.assignments| && i != k ==> c.assignments[i].pk != StoredRow(c, a).pk
  {
    var k := StorePosition(c, a);
    if a.pk.Some? && k == |c.assignments| {
      assert IndexOfPk(c.assignments, a.pk.value).None?;
    }
  }

  /** After storing `a`, its faculty teaches the other subjects plus the new one. */
  lemma StoredSubjectsSame(c: Catalog, a: FacultyAssignment)
    requires Valid(c)
    requires a.courseOffering in c.offerings
    ensures SubjectsOf(c.offerings, Stored(c, a), a.faculty, None)
         == SubjectsOf(c.offerings, c.assignments, a.faculty, a.pk) + {c.offerings[a.courseOffering].subject}
  {
    var k := StorePosition(c, a);
    var x := StoredRow(c, a);
    var rows, rows' := c.assignments, Stored(c, a);
    var f, s := a.faculty, c.offerings[a.courseOffering].subject;
    StoredOthers(c, a);
    var lhs := SubjectsOf(c.offerings, rows', f, None);
    var rhs := SubjectsOf(c.offerings, rows, f, a.pk) + {s};
    forall t | t in lhs ensures t in rhs {
      var y :| y in rows' && y.faculty == f && y.pk != None && y.courseOffering in c.offerings
        && c.offerings[y.courseOffering].subject == t;
      var i :| 0 <= i < |rows'| && rows'[i] == y;
      if i != k {
        assert rows[i] == y && y.pk != x.pk;
      }
    }
    forall t | t in rhs ensures t in lhs {
      if t == s {
        assert rows'[k] == x;
      } else {
        var y :| y in rows && y.faculty == f && y.pk != a.pk && y.courseOffering in c.offerings
          && c.offerings[y.courseOffering].subject == t;
        var i :| 0 <= i < |rows| && rows[i] == y;
        assert i != k;
        assert rows'[i] == y;
      }
    }
  }

  /** Storing `a` can only shrink the subjects of every other faculty. */
  lemma StoredSubjectsOther(c: Catalog, a: FacultyAssignment, f: FacultyId)
    requires f != a.faculty
    ensures SubjectsOf(c.offerings, Stored(c, a), f, None) <= SubjectsOf(c.offerings, c.assignments, f, None)
  {
    var k := StorePosition(c, a);
    var rows, rows' := c.assignments, Stored(c, a);
    forall t | t in SubjectsOf(c.offerings, rows', f, None)
      ensures t in SubjectsOf(c.offerings, rows, f, None)
    {
      var y :| y in rows' && y.faculty == f && y.pk != None && y.courseOffering in c.offerings
        && c.offerings[y.courseOffering].subject == t;
      var i :| 0 <= i < |rows'| && rows'[i] == y;
      assert i != k && rows[i] == y;
    }
  }

  lemma SaveKeepsKeys(c: Catalog, a: FacultyAssignment)
    requires Valid(c)
    requires SaveAssignment(c, a).Ok?
    ensures var c' := SaveAssignment(c, a).value;
      KeysStored(c'.assignments, c'.nextAssignmentPk) &&
      forall x :: x in c'.assignments ==> x.courseOffering in c'.offerings
  {
    var c' := SaveAssignment(c, a).value;
    var k := StorePosition(c, a);
    StoredOthers(c, a);
    forall i, j | 0 <= i < j < |c'.assignments|
      ensures c'.assignments[i].pk != c'.assignments[j].pk
    {
    }
  }

  lemma SaveKeepsPairsUnique(c: Catalog, a: FacultyAssignment)
    requires Valid(c)
    requires SaveAssignment(c, a).Ok?
    ensures UniqueAssignments(SaveAssignment(c, a).value.assignments)
  {
    var rows' := SaveAssignment(c, a).value.assignments;
    var k := StorePosition(c, a);
    var x := StoredRow(c, a);
    StoredOthers(c, a);
    forall i, j | 0 <= i < j < |rows'|
      ensures rows'[i].courseOffering != rows'[j].courseOffering || rows'[i].faculty != rows'[j].faculty
    {
      if i == k || j == k {
        var o := if i == k then j else i;
        assert c.assignments[o].pk != a.pk by {
          if a.pk.None? { assert c.assignments[o].pk.Some?; }
        }
        assert !(c.assignments[o].pk != a.pk && c.assignments[o].courseOffering == a.courseOffering
                 && c.assignments[o].faculty == a.faculty);
      }
    }
  }

  lemma SaveKeepsTwoSubjects(c: Catalog, a: FacultyAssignment, f: FacultyId)
    requires Valid(c)
    requires SaveAssignment(c, a).Ok?
    ensures |FacultySubjects(SaveAssignment(c, a).value, f)| <= 2
  {
    var c' := SaveAssignment(c, a).value;
    if f == a.faculty {
      StoredSubjectsSame(c, a);
      var others := SubjectsOf(c.offerings, c.assignments, f, a.pk);
      var s := c.offerings[a.courseOffering].subject;
      OtherSubjectsBelowAll(c, f, a.pk);
      SubsetSize(others, FacultySubjects(c, f));
      if s in others {
        assert others + {s} == others;
      } else {
        assert |others| < 2;
      }
    } else {
      StoredSubjectsOther(c, a, f);
      SubsetSize(FacultySubjects(c', f), FacultySubjects(c, f));
    }
  }

  /**
   * The two-subject rule is an invariant: a save that `clean` accepts keeps
   * every faculty at no more than two distinct subjects, and the uniqueness
   * rules and key discipline hold after it too.
   */
  lemma SaveAssignmentPreservesValid(c: Catalog, a: FacultyAssignment)
    requires Valid(c)
    requires SaveAssignment(c, a).Ok?
    ensures Valid(SaveAssignment(c, a).value)
  {
    SaveKeepsKeys(c, a);
    SaveKeepsPairsUnique(c, a);
    forall f ensures |FacultySubjects(SaveAssignment(c, a).value, f)| <= 2 {
      SaveKeepsTwoSubjects(c, a, f);
    }
  }

  /**
   * Re-validating a stored assignment of a valid catalog is always accepted:
   * its own row is left out, so its subject is not counted against it.
   */
  lemma StoredAssignmentRevalidates(c: Catalog, i: int)
    requires Valid(c)
    requires 0 <= i < |c.assignments|
    ensures Clean(c.offerings, c.assignments, c.assignments[i]) == Accepted
  {
    var a := c.assignments[i];
    var s := c.offerings[a.courseOffering].subject;
    var others := SubjectsOf(c.offerings, c.assignments, a.faculty, a.pk);
    var all := FacultySubjects(c, a.faculty);
    if s !in others {
      OtherSubjectsBelowAll(c, a.faculty, a.pk);
      assert s in all;
      assert others <= all - {s};
      SubsetSize(others, all - {s});
    }
  }

  /** Applies a sequence of saves; the first refused one stops the sequence. */
  function SaveAll(c: Catalog, batch: seq<FacultyAssignment>): Catalog
    decreases |batch|
  {
    if batch == [] then c
    else match SaveAssignment(c, batch[0])
      case Ok(c') => SaveAll(c', batch[1..])
      case Err(_) => c
  }

  /**
   * Starting from any valid catalog and saving only what validation
   * accepts, every faculty keeps at most two distinct subjects.
   */
  lemma {:induction false} SavesKeepTwoSubjects(c: Catalog, batch: seq<FacultyAssignment>)
    requires Valid(c)
    ensures Valid(SaveAll(c, batch))
    ensures forall f :: |FacultySubjects(SaveAll(c, batch), f)| <= 2
    decreases |batch|
  {
    if batch != [] {
      match SaveAssignment(c, batch[0])
      case Ok(c') =>
        SaveAssignmentPreservesValid(c, batch[0]);
        SavesKeepTwoSubjects(c', batch[1..]);
      case Err(_) =>
    }
  }

  /**
   * From offerings with no assignments yet, validated saves never give a
   * faculty a third subject.
   */
  lemma SavesFromNoAssignmentsKeepTwoSubjects(c: Catalog, batch: seq<FacultyAssignment>)
    requires UniqueOfferings(c.offerings) && (forall i :: i in c.offerings ==> i < c.nextOfferingId)
    requires c.assignments == []
    ensures forall f :: |FacultySubjects(SaveAll(c, batch), f)| <= 2
  {
    assert Valid(c);
    SavesKeepTwoSubjects(c, batch);
  }

  /** A save through validation: a new offering or an assignment. */
  datatype CatalogOp = OfferingSave(offering: CourseOffering) | AssignmentSave(assignment: FacultyAssignment)

  /** Applies one save; a refused save leaves the catalog as it was. */
  function Step(c: Catalog, op: CatalogOp): (r: Catalog)
    requires Valid(c)
    ensures Valid(r)
  {
    match op
    case OfferingSave(o) =>
      if AddOffering(c, o).Ok? then AddOfferingPreservesValid(c, o); AddOffering(c, o).value else c
    case AssignmentSave(a) =>
      if SaveAssignment(c, a).Ok? then SaveAssignmentPreservesValid(c, a); SaveAssignment(c, a).value else c
  }

  /** Applies interleaved offering and assignment saves in order. */
  function Run(c: Catalog, ops: seq<CatalogOp>): (r: Catalog)
    requires Valid(c)
    ensures Valid(r)
    decreases |ops|
  {
    if ops == [] then c else Run(Step(c, ops[0]), ops[1..])
  }

  /**
   * From the empty catalog, any interleaving of validated offering and
   * assignment saves leaves every faculty with at most two subjects.
   */
  lemma RunFromEmptyKeepsTwoSubjects(ops: seq<CatalogOp>)
    ensures forall f :: |FacultySubjects(Run(EmptyCatalog(), ops), f)| <= 2
  {
    EmptyCatalogValid();
  }

  // ---------------------------------------------------------------------
  // ScheduledClass and its uniqueness rules
  // ---------------------------------------------------------------------

  /** Two classes clash when they share a slot and a room, section or faculty. */
  predicate Clashes(a: ScheduledClass, b: ScheduledClass)
  {
    a.day == b.day && a.period == b.period &&
    (a.classroom == b.classroom || a.section == b.section || a.faculty == b.faculty)
  }

  /** The three unique_together rules of ScheduledClass. */
  predicate NoDoubleBooking(rows: seq<ScheduledClass>)
  {
    forall i, j :: 0 <= i < j < |rows| ==> !Clashes(rows[i], rows[j])
  }

  /** The day choices 1..6. */
  predicate DayInRange(day: int)
  {
    1 <= day <= 6
  }

  /** Full validation of a new class against the stored rows. */
  predicate Admissible(rows: seq<ScheduledClass>, c: ScheduledClass)
  {
    DayInRange(c.day) && forall i :: 0 <= i < |rows| ==> !Clashes(rows[i], c)
  }

  /**
   * A class is admissible exactly when its day is in range and adding it
   * keeps the table free of double bookings.
   */
  lemma AdmissibleIff(rows: seq<ScheduledClass>, c: ScheduledClass)
    requires NoDoubleBooking(rows)
    ensures Admissible(rows, c) <==> DayInRange(c.day) && NoDoubleBooking(rows + [c])
  {
    if DayInRange(c.day) && NoDoubleBooking(rows + [c]) {
      forall i | 0 <= i < |rows| ensures !Clashes(rows[i], c) {
        assert (rows + [c])[i] == rows[i] && (rows + [c])[|rows|] == c;
      }
    }
  }

  /** The stored ScheduledClass rows. */
  class ScheduleTable {
    var rows: seq<ScheduledClass>

    ghost predicate Valid()
      reads this
    {
      NoDoubleBooking(rows)
    }

    constructor ()
      ensures Valid() && rows == []
    {
      rows := [];
    }

    /** A validated save of one class; a refused one changes nothing. */
    method Insert(c: ScheduledClass) returns (ok: bool)
      requires Valid()
      modifies this
      ensures Valid()
      ensures ok == Admissible(old(rows), c)
      ensures rows == if ok then old(rows) + [c] else old(rows)
    {
      ok := Admissible(rows, c);
      if ok {
        AdmissibleIff(rows, c);
        rows := rows + [c];
      }
    }

    /** Deletes every stored class. */
    method DeleteAll()
      modifies this
      ensures Valid() && rows == []
    {
      rows := [];
    }

    /**
     * Inserts a batch in one transaction.  The database enforces the
     * uniqueness rules (not the day choices): a batch that would break them
     * is refused whole.
     */
    method BulkCreate(batch: seq<ScheduledClass>) returns (ok: bool)
      requires Valid()
      modifies this
      ensures Valid()
      ensures ok == NoDoubleBooking(old(rows) + batch)
      ensures rows == if ok then old(rows) + batch else old(rows)
    {
      ok := NoDoubleBooking(rows + batch);
      if ok {
        rows := rows + batch;
      }
    }
  }
}
