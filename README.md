# Timetable scheduler — a Dafny model

This project models the core of a Django timetable scheduler (the
`scheduler_app` package of Updated_timetable) and proves properties about
that model. The scheduler has a catalog of faculties, classrooms, sections,
subjects, course offerings and faculty assignments. It has a solver front
end that turns a solved 0/1 assignment into `ScheduledClass` rows, and a
page that shows one section's week as a grid. The model covers:

- **Catalog** (`Catalog.dfy`, from `models.py`):
  - the entities and their field defaults;
  - the rule that a faculty teaches at most two distinct subjects (`FacultyAssignment.clean`);
  - the uniqueness of offerings per (subject, section) and of assignments per (offering, faculty);
  - the three no-double-booking rules of `ScheduledClass`, which every stored table keeps, and its day range. Only `Insert` (the `full_clean` path) checks the day: a bulk-inserted row can carry a day outside 1..6. `view_timetable` then fails when such a row belongs to the selected section and its period lies within the grid.
  - A catalog value and its `Valid` invariant are preserved by every accepted save. The schedule table is a class whose inserts are checked.
- **Clock** (`Clock.dfy`): times of day as minutes since midnight, wrapping modulo 1440 as `datetime.time()` does.
- **Decimal** (`Decimal.dfy`): the decimal text `f"{i}"` that the slot captions use.
- **Period table** (`PeriodTimes.dfy`): `generate_period_times` of `scheduler_service.py`, a loop over back-to-back periods.
- **Solver front end** (`Solver.dfy`, `TimetableORToolsSolver`). It covers:
  - the requirement-id lookup;
  - the faculty workload bounds, with their defaults: a minimum of 0, and a maximum of 1000 when it is 0;
  - `_save_results`, which deletes the table and then bulk-inserts the rows built from a given assignment.
- **Day slots** (`TimetableSlots.dfy`): the `generate_period_times` of `views.py`, with breaks and their labels.
- **Timetable page** (`TimetableView.dfy`): `view_timetable`'s period map, grid, day rows and per-faculty tally.

The solver itself (OR-Tools) is not modelled. Its answer is an input map
from decision-variable key `(req_id, day, period, room_id)` to a truth value.

## Model

| member | source | states |
|---|---|---|
| Catalog.NewFaculty | scheduler_app/models.py:11-18 | a new faculty has role AP and 0 minimum and 0 maximum weekly hours |
| Catalog.NewClassroom | scheduler_app/models.py:28-29 | a new classroom has capacity 30 |
| Catalog.NewOffering | scheduler_app/models.py:52-56 | a new offering requires 3 theory and 1 tutorial hour |
| Catalog.NewAssignment | scheduler_app/models.py:71-85 | a new assignment has no pk yet and responsibility ALL |
| Catalog.Clean | scheduler_app/models.py:93-110 | rejected exactly when the subject is new to the faculty and the faculty's other assignments already cover at least 2 subjects; the reported count is the size of that set; an unknown offering is its own outcome |
| Catalog.CleanAcceptsTaughtSubject | scheduler_app/models.py:104-107 | a subject the faculty already teaches is accepted whatever the count |
| Catalog.CleanIgnoresOwnRow | scheduler_app/models.py:97-99 | the stored row with the assignment's own pk does not change the verdict |
| Catalog.EmptyCatalogValid | scheduler_app/models.py:93-110 | the empty catalog satisfies every catalog invariant |
| Catalog.AddOffering | scheduler_app/models.py:58-59 | refused exactly when an offering with the same subject and section exists; otherwise stored under a fresh id |
| Catalog.AddOfferingPreservesValid | scheduler_app/models.py:58-59 | adding an offering keeps the catalog invariant |
| Catalog.SaveAssignment | scheduler_app/models.py:87-110 | saved exactly when clean accepts it and no other row has its (offering, faculty) pair; a new row gets the next pk, an existing pk is updated in place |
| Catalog.StoredSubjectsSame | scheduler_app/models.py:101-104 | after the save, the faculty's subject set is its other rows' subjects plus the assignment's subject |
| Catalog.SaveKeepsPairsUnique | scheduler_app/models.py:87-88 | an accepted save keeps (offering, faculty) unique |
| Catalog.SaveKeepsTwoSubjects | scheduler_app/models.py:101-110 | after an accepted save every faculty still has at most 2 distinct subjects |
| Catalog.SaveAssignmentPreservesValid | scheduler_app/models.py:87-110 | an accepted save keeps the whole catalog invariant |
| Catalog.StoredAssignmentRevalidates | scheduler_app/models.py:97-107 | re-validating any stored assignment is accepted |
| Catalog.SavesKeepTwoSubjects | scheduler_app/models.py:93-110 | from a valid catalog, any sequence of saves keeps every faculty at no more than 2 subjects |
| Catalog.SavesFromNoAssignmentsKeepTwoSubjects | scheduler_app/models.py:93-110 | from any set of unique offerings with no assignments yet, any sequence of validated assignment saves keeps every faculty at no more than 2 subjects |
| Catalog.Step | scheduler_app/models.py:58-110 | applying one validated save, of an offering or of an assignment, keeps the whole catalog invariant |
| Catalog.Run | scheduler_app/models.py:58-110 | applying a sequence of validated offering and assignment saves in order keeps the whole catalog invariant |
| Catalog.RunFromEmptyKeepsTwoSubjects | scheduler_app/models.py:93-110 | from the empty catalog, any interleaving of validated offering and assignment saves leaves every faculty with at most 2 subjects |
| Catalog.AdmissibleIff | scheduler_app/models.py:118-137 | a class is admissible exactly when its day is in 1..6 and adding it leaves no two rows sharing (day, period) with the same classroom, section or faculty |
| Catalog.ScheduleTable.Insert | scheduler_app/models.py:132-137 | the insert succeeds exactly when admissible; a refused insert leaves the table unchanged |
| Catalog.ScheduleTable.DeleteAll | scheduler_app/scheduler_service.py:81 | the table is empty afterwards |
| Catalog.ScheduleTable.BulkCreate | scheduler_app/scheduler_service.py:102 | all rows are added exactly when the result is free of double booking; otherwise nothing is added |
| Clock.AddMinutes | scheduler_app/scheduler_service.py:19-20 | the result is a time of day that differs from start + minutes by a whole number of days |
| Clock.AddMinutesTwice | scheduler_app/scheduler_service.py:18-21 | advancing by a and then b equals advancing by a + b |
| Clock.HoursMinutes | scheduler_app/scheduler_service.py:17 | "HH:MM" as minutes: hour and minute are recovered by division and remainder |
| Decimal.NatToString | scheduler_app/views.py:21 | a non-empty string of decimal digits |
| Decimal.NatToStringValue | scheduler_app/views.py:21 | the digits of `f"{n}"` denote n, with no leading zero unless n is 0 |
| Decimal.NatToStringInjective | scheduler_app/views.py:21 | two numbers with the same decimal text are equal |
| PeriodTimes.GeneratePeriodTimes | scheduler_app/scheduler_service.py:14-22 | the loop builds exactly the closed-form table: period i spans (i-1)*duration to i*duration after the start |
| PeriodTimes.SpanChain | scheduler_app/scheduler_service.py:19-21 | a period ends one duration after it starts, when the next one starts |
| PeriodTimes.TableChain | scheduler_app/scheduler_service.py:18-21 | keys are exactly 1..periods; period 1 starts at the start time; each period ends when the next begins |
| PeriodTimes.EmptyTable | scheduler_app/scheduler_service.py:18 | no periods give an empty table |
| Solver.RequirementLookup | scheduler_app/scheduler_service.py:54 | every requirement id is a key and nothing else is: each key maps to a requirement of the list with that id |
| Solver.LookupLastWins | scheduler_app/scheduler_service.py:54 | on duplicate ids the last requirement with the id is the one stored |
| Solver.EffectiveMinHours | scheduler_app/scheduler_service.py:69 | the lower bound is the faculty's minimum, with 0 for unset |
| Solver.EffectiveMaxHours | scheduler_app/scheduler_service.py:70 | the upper bound is the faculty's maximum, or 1000 when it is 0 |
| Solver.DefaultFacultyBounds | scheduler_app/scheduler_service.py:69-70 | a faculty with default hours is bounded by 0..1000 |
| Solver.AssignedVars | scheduler_app/scheduler_service.py:59-62 | exactly the variables whose requirement is taught by the faculty |
| Solver.Bounds | scheduler_app/scheduler_service.py:58-73 | the bounds posted for the faculties in order, no more bounds than faculties (their content is stated by the next two rows) |
| Solver.BoundsHoldIff | scheduler_app/scheduler_service.py:58-73 | an assignment satisfies every posted bound exactly when each faculty with variables has a true count within its effective [min, max] |
| Solver.BoundsOnlyForBusyFaculty | scheduler_app/scheduler_service.py:64-73 | every bound belongs to a faculty with at least one variable, carries exactly its variables and its effective limits |
| Solver.Record | scheduler_app/scheduler_service.py:90-100 | the row copies day, period and room from the key; faculty, subject, section and class type from the requirement; start and end from the period table |
| Solver.TrueKeys | scheduler_app/scheduler_service.py:85-86 | exactly the true variables, as many as the true count |
| Solver.Materialize | scheduler_app/scheduler_service.py:85-100 | the rows built from the true variables in order; a failure names a requirement id missing from the lookup or a period missing from the period table (the rows and the success condition are stated by the next two rows) |
| Solver.MaterializeOkIff | scheduler_app/scheduler_service.py:85-88 | materialisation succeeds exactly when every true variable has a known requirement and a known period |
| Solver.MaterializeRows | scheduler_app/scheduler_service.py:85-100 | a successful materialisation has as many rows as true variables, and row j is the record of the j-th true variable |
| Solver.MaterializeErrSticks | scheduler_app/scheduler_service.py:87-88 | the first failing lookup decides the outcome |
| Solver.MaterializeNoDoubleBooking | scheduler_app/scheduler_service.py:102 | a conflict-free assignment over distinct keys materialises into rows free of double booking |
| Solver.AllKnown | scheduler_app/scheduler_service.py:59-61 | true exactly when every variable's requirement is in the lookup |
| Solver.TimetableSolver.constructor | scheduler_app/scheduler_service.py:26-44 | keeps the catalog lists; the period table is the closed-form table; no variables, requirements or bounds yet |
| Solver.TimetableSolver.PrepareClassRequirements | scheduler_app/scheduler_service.py:46-54 | the lookup is rebuilt from the requirement list; the requirements, variables and constraints are unchanged, and the catalog lists, period count and period table are constant fields |
| Solver.TimetableSolver.ApplyFacultyHourConstraints | scheduler_app/scheduler_service.py:56-73 | fails exactly when there are faculties and some variable's requirement is unknown, posting nothing; otherwise appends the bounds of every faculty with variables; variables, requirements and lookup are unchanged, and the catalog lists and period table are constant fields |
| Solver.TimetableSolver.ApplyConstraints | scheduler_app/scheduler_service.py:75-78 | the workload bounds are the only constraints posted; variables, requirements and lookup are unchanged, and the catalog lists and period table are constant fields |
| Solver.TimetableSolver.SaveResults | scheduler_app/scheduler_service.py:80-103 | the table ends holding exactly the materialised rows and their count is reported; a failed lookup or a rejected bulk insert leaves the table empty; a conflict-free assignment is never rejected by the bulk insert (the variables are distinct, as dict keys are) |
| TimetableSlots.BreakLabelLunch | scheduler_app/views.py:30 | a break is "Lunch Break" exactly when it follows period 4 and lasts at least 30 minutes |
| TimetableSlots.SlotFor | scheduler_app/views.py:18-37 | a slot starts where it is placed |
| TimetableSlots.GenerateSlots | scheduler_app/views.py:8-40 | the loop lays out the day's plan: each slot starts where the previous ended, the first at the start time |
| TimetableSlots.LaidOutContiguous | scheduler_app/views.py:14-38 | the first slot starts at the start; each ends its length after it starts (duration for a period, the break's minutes for a break); slots are contiguous |
| TimetableSlots.PlanPeriodsInOrder | scheduler_app/views.py:17-25 | the periods are numbered 1..periods in ascending order |
| TimetableSlots.PlanBreakPlacement | scheduler_app/views.py:28-37 | a break directly follows exactly the periods whose number is a key, and lasts what the map gives |
| TimetableSlots.PlanLength | scheduler_app/views.py:17-37 | the length is periods plus the number of break keys in 1..periods |
| TimetableSlots.LunchBreakDay | scheduler_app/views.py:26-48 | with a 60-minute break after period 4, periods 1-4 match the day without breaks, the lunch break runs 13:20-14:20 and period 5 starts 60 minutes after period 4 ends |
| TimetableView.LaidOutKinds | scheduler_app/views.py:19-36 | a laid-out slot is a period exactly where the plan has one, with its index and "Period i" caption; a break carries its break label |
| TimetableView.PeriodSlotMap | scheduler_app/views.py:49 | the keys are exactly the period-slot indices |
| TimetableView.SlotTimesStored | scheduler_app/views.py:49 | when no index repeats, every period slot's times are stored under its index |
| TimetableView.IndicesBelowCount | scheduler_app/views.py:50 | no period slot's index exceeds the period count |
| TimetableView.ActualPeriodCount | scheduler_app/views.py:50 | the largest period-slot index, or 0 when the day has no period slot |
| TimetableView.GeneratedDayColumns | scheduler_app/views.py:48-50 | for a generated day the period indices are 1..periods, the count is periods, every period slot has a grid column and its own times in the map |
| TimetableView.SectionClasses | scheduler_app/views.py:55-57 | exactly the section's classes |
| TimetableView.LastAt | scheduler_app/views.py:61-65 | the class kept at (day, period) is one of the section's classes there; none exactly when no class is there |
| TimetableView.LastAtIsLast | scheduler_app/views.py:61-65 | the class kept at (day, period) is the entry that no later entry shares the cell with, since later writes overwrite earlier ones |
| TimetableSlots.PeriodLabelNumber | scheduler_app/views.py:21 | the caption of period i is "Period " followed by the digits of i |
| TimetableSlots.BreakLabelNumber | scheduler_app/views.py:30 | a break caption other than the lunch break is "Break after " followed by the digits of the period it follows |
| TimetableView.Taught | scheduler_app/views.py:63-72 | exactly the faculty's classes whose period is within the grid |
| TimetableView.Hours | scheduler_app/views.py:61-72 | the per-faculty tally of in-grid classes; every listed faculty has at least one (the exact count is the next row) |
| TimetableView.HoursCount | scheduler_app/views.py:61-72 | the tally lists exactly the faculties with an in-grid class and gives each the number of those classes |
| TimetableView.BookedClassShown | scheduler_app/views.py:59-65 | with no double booking, the grid shows each class of the section at its own day and period |
| TimetableView.UnbookedCellFree | scheduler_app/views.py:59 | a cell with no class of the section is empty |
| TimetableView.FreeColumns | scheduler_app/views.py:59 | columns 1..n, all empty |
| TimetableView.GridOf | scheduler_app/views.py:59-71 | the grid after writing each in-grid class on a day 1..6 into its cell, in order; its rows are days 1..6 |
| TimetableView.GridOfIsGrid | scheduler_app/views.py:59-71 | placing the classes in order, with no in-grid class on a day outside 1..6, leaves at each (day, period) of the grid the last class there, or an empty cell when there is none |
| TimetableView.DayCells | scheduler_app/views.py:76-84 | fails exactly when a period slot has an index below 1; otherwise one cell per slot: the grid cell of its period, or the break's caption and times |
| TimetableView.FillGrid | scheduler_app/views.py:59-72 | fails exactly when an in-grid class has a day outside 1..6; otherwise each cell holds the last class at its day and period, and the tally counts in-grid classes |
| TimetableView.LayOutRows | scheduler_app/views.py:74-85 | six rows named Monday..Saturday, one cell per slot: the grid cell under a period, the break's caption and times under a break; fails exactly when a period slot has no column |
| TimetableView.BuildRows | scheduler_app/views.py:49-85 | fails exactly on a bad day or a period slot without a column; otherwise the rows show the grid and the tally is the per-faculty count |
| TimetableView.Headers | scheduler_app/views.py:91-94 | one header per slot, in order, carrying that slot's caption, start and end |
| TimetableView.ViewTimetable | scheduler_app/views.py:43-97 | the standard day is laid out; the context carries the given section list; with no section the rows and the tally are empty; with one, the page fails exactly when an in-grid class has a day outside 1..6, and otherwise shows that section's grid and per-faculty count over eight periods |

## Left out

- The OR-Tools model and solver (`CpModel`, `CpSolver`, `solver.Value`) are a foreign library. A solved assignment is an input map from variable key to truth value.
- Requirement derivation, coverage constraints, double-booking constraints and the search are not modelled: the source has a TODO stub and no such constraints (`scheduler_service.py:46-54,75-78`). `classRequirements` starts empty and is never derived.
- The Django ORM, HTTP request handling, `render` and `print` are not modelled. Queries become sequences in table order; `ScheduledClass` `Meta.ordering` is not modelled. For a table without double booking, `BookedClassShown` shows the grid does not depend on that order.
- `strptime` and `strftime` are left out: times are minutes mod 1440. The slot and header strings carry minutes rather than "HH:MM" text, and `period_headers` keeps each slot's caption and times unformatted.
- Clock.AddMinutes: crossing midnight is modelled by wrapping. `datetime` moves into the next day, and `.time()` and "%H:%M" drop that day, so wrapping mod 1440 matches what the source shows for offsets within datetime's range. Date overflow is left out: `strptime` dates its result 1900-01-01, and adding a `timedelta` that leaves years 1..9999 raises `OverflowError` (for example `generate_period_times` with `duration=10**9`). The model returns a wrapped time instead, so `PeriodTimes.GeneratePeriodTimes` and `TimetableSlots.GenerateSlots` do not model that error.
- Catalog.SaveAssignment: models the validated save path only (`full_clean`, as a form or the admin runs it: clean plus unique_together). A plain `save()` or `objects.create` skips `clean`, so the two-subject invariant of `SavesKeepTwoSubjects` holds only for rows saved through validation.
- Catalog.SaveAssignment: the catalog holds no faculty table, so a faculty id that names no faculty is accepted. The source refuses it: `full_clean` rejects the foreign key, and `self.faculty` in `clean` raises `DoesNotExist`.
- Catalog.AddOffering: the catalog holds no subject or section table, so a subject or section id that names nothing is accepted. The source refuses it through the foreign keys of `CourseOffering`.
- Editing a course offering, and deleting offerings or assignments, are not modelled. Editing an assignment is modelled: `SaveAssignment` with a stored pk replaces that row in place. In the source, changing `CourseOffering.subject` does not re-validate the assignments that refer to it, so it can leave a faculty with three subjects.
- Catalog.ScheduleTable.Insert: the table holds no classroom, faculty, subject or section tables, so a class naming ids that do not exist is accepted. The source refuses it: `full_clean` validates each foreign key, and the database refuses it on a plain save too.
- Catalog.ScheduleTable.BulkCreate: refuses only on the uniqueness rules. The database also refuses rows whose classroom, faculty, subject or section does not exist (a foreign-key violation); that refusal is not modelled.
- Solver.TimetableSolver.SaveResults: an `IntegrityError` from a missing foreign key is not modelled; the reported outcome covers the uniqueness rules only.
- Solver.TimetableSolver.SaveResults: the source deletes before inserting, so a failure after the delete leaves the table empty. The replacement is not atomic, and the model follows the code here, not the intent of a full replacement.
- TimetableView.ViewTimetable: `facultyHours` is keyed by faculty id where the source keys by name. Faculty names are unique, so the two are equivalent. Cells hold subject, faculty and classroom ids rather than their `__str__` text.
- TimetableView.ViewTimetable: `Section.objects.all()` is taken as the `sections` parameter and passed to the context unchanged.
- TimetableView.ViewTimetable: the `section_id` string parameter is taken as already parsed. An empty parameter counts as no selection; a non-numeric one is not modelled.
- The `generate_timetable` management command calls a `solve()` the source does not define, so it is left out. `admin.py` only registers models, so it is left out too.
- The capacity of a classroom and the role of a faculty are stored but carry no rule in the source.
