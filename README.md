# Timetable generator: a Dafny model

This project models the core of a college timetabling application. The
application has a React front end and a Flask back end, and the model covers
four parts of it:

- **The browser record store.** `src/lib/storage.js` keeps seven collections
  of JSON records in `localStorage` and provides insert, update by id,
  delete, an upsert keyed by year, a single-record upsert for the department
  timings, filtered reads, and a read-time join.
- **The practical-lab scheduler.** `Backend/modules/timetable_generator.py`
  loads the lab practicals of a year and fans each one out into one-hour
  batch sessions. It then places every session in a lab, a day and a period
  by depth-first search with make and undo. A session may not be placed
  where its batch, its lab or its faculty is already booked.
- **The React components that hold state over the store.** These are the
  department timings, subjects and theory assignment steps of the wizard;
  the faculty, class structure and timetable search pages; and the wizard's
  step counter.
- **The Flask handlers over MongoDB collections.** These add, delete, update
  and confirm labs; add, delete and update faculty; and replace a faculty's
  workload.

Values are the JSON values both halves exchange (`Values.Value`). Records are
maps from field names to values. JavaScript and Python read a missing field,
and judge truthiness, differently; each language has its own function for
both.

Each module follows the shape of its source:

- Code that updates state in place is a class whose methods state the new
  state. This covers the store, the generator, the components and the Mongo
  collections.
- Code that only computes is a function.
- Each function and method is tied by lemmas to what the source promises.
  Examples are round trips, preserved invariants, counts and "nothing else
  changes".

Files:

- `values.dfy`: JSON values and truthiness.
- `seqs.dfy`: filters, toggles, stable sorting.
- `text.dfy`: `join`/`split`, `parseInt`, string order.
- `ui.dfy`: JavaScript conversions used by the components.
- `storage.dfy`: the record store.
- `schedule.dfy`: the grid and its constraints.
- `practicals.dfy`: what the generator loads and prepares.
- `generator.dfy`: the search.
- One file per component: `department_timings.dfy`, `subjects_step.dfy`, `theory_assignment.dfy`, `faculty_data.dfy`, `class_structure.dfy`, `view_timetables.dfy`, `wizard.dfy`.
- `mongo.dfy`: the MongoDB operations the handlers use.
- `handlers.dfy`: the handlers.

## Model

| member | source | states |
|---|---|---|
| Storage.StorageKeysDistinct | src/lib/storage.js:1-9 | the seven collections live under seven different keys, so writing one never touches another |
| Storage.Read | src/lib/storage.js:15-23 | a missing key or a slot that does not parse reads as the empty sequence, otherwise the stored records |
| Storage.LocalStore.Save | src/lib/storage.js:25-31 | a write replaces exactly one collection; a write the medium refuses changes nothing |
| Storage.LocalStore.Insert | src/lib/storage.js:37-47 | appends exactly one record at the end, earlier records unchanged, other collections unchanged |
| Storage.Stamped | src/lib/storage.js:37-47 | the inserted record has every input field except `id`, `created_at`, `updated_at`, which the store sets |
| Storage.LocalStore.Update | src/lib/storage.js:50-63 | `null` and no write iff no record has the id; otherwise only the first match changes, length and order kept |
| Storage.UpdateFirst | src/lib/storage.js:50-63 | same length, every record but the first match unchanged, the first match merged with the updates and re-timestamped |
| Storage.Touched | src/lib/storage.js:50-63 | fields of the updates win, the rest of the record stays, `updated_at` is refreshed |
| Storage.LocalStore.Delete | src/lib/storage.js:65-70 | always returns true; the collection becomes the records without that id |
| Storage.WithoutId | src/lib/storage.js:65-70 | no record with the id survives, every other record survives with all its copies, in the original order |
| Storage.DeleteIdempotent | src/lib/storage.js:65-70 | deleting the same id twice is deleting it once |
| Storage.LocalStore.ClassStructureOfYear | src/lib/storage.js:115-118 | a stored record of that year, or `None` exactly when no record has that year |
| Storage.FindYear | src/lib/storage.js:115-118 | `None` iff no record has the year, otherwise the first such record |
| Storage.LocalStore.UpsertClassStructure | src/lib/storage.js:120-142 | the collection becomes `UpsertYear` of the old one and the result is the year's record in it |
| Storage.UpsertYear | src/lib/storage.js:120-142 | appends a stamped record carrying the year when none has it, else merges into the first match in place |
| Storage.UpsertYearCounts | src/lib/storage.js:120-142 | for data without `year`, the year's count becomes max(1, old count); every other year's count is unchanged |
| Storage.UpsertYearKeepsOnePerYear | src/lib/storage.js:120-142 | at most one record per year stays at most one per year |
| Storage.UpsertYearResult | src/lib/storage.js:120-142 | afterwards the year is found and its record carries the year and every given field |
| Storage.UpsertYearOtherYear | src/lib/storage.js:120-142 | the lookup of every other year is unchanged |
| Storage.LocalStore.SubjectsOfYear | src/lib/storage.js:148-151 | exactly the subjects of the year, every copy kept, as a subsequence of the stored order |
| Storage.LocalStore.SubjectsOfYearAndType | src/lib/storage.js:153-156 | exactly the subjects of the year whose class type is listed, every copy kept, in stored order |
| Storage.LocalStore.Timings | src/lib/storage.js:195-198 | element 0, or `None` exactly when nothing is stored |
| Storage.LocalStore.UpsertTimings | src/lib/storage.js:200-220 | the collection becomes `UpsertFirst` of the old one and the result is its element 0 |
| Storage.UpsertFirst | src/lib/storage.js:200-220 | length max(1, old length); element 0 is a new stamped record or the old one merged; the rest unchanged |
| Storage.UpsertFirstTwice | src/lib/storage.js:200-220 | two upserts leave one record holding the later data over the earlier, with the later timestamp |
| Storage.LocalStore.AssignmentsOfYearAndType | src/lib/storage.js:226-238 | one joined record per assignment of that year and type, each with `faculties` and `subjects` attached: `JoinAssignments` of the filtered assignments |
| Storage.JoinAssignments | src/lib/storage.js:226-238 | same length and order; `faculties`/`subjects` are the first record with the referenced id, or undefined; other fields kept |
| Storage.Lookup | src/lib/storage.js:226-238 | undefined iff no record has the id, otherwise the first record with it |
| Storage.JoinKeepsField | src/lib/storage.js:226-238 | the join changes no field other than the two it attaches |
| Storage.LocalStore.TimetablesOf | src/lib/storage.js:279-284 | exactly the timetables of that academic year and semester, every copy kept, in stored order |
| Practicals.IsLabPractical | Backend/modules/timetable_generator.py:89-96 | true iff `hrs_per_week_practical` is a number of at least 2; missing counts as 0; a non-number fails the comparison |
| Practicals.LoadPracticals | Backend/modules/timetable_generator.py:81-102 | the year's subjects with at least 2 practical hours, in order; nothing when loading fails |
| Practicals.IdText | Backend/modules/timetable_generator.py:132-136 | `str()` of an id: a string id is itself, and every hashable id becomes text |
| Practicals.IdToName | Backend/modules/timetable_generator.py:131-132 | defined iff every faculty has `_id` and `name`; every key is the `str()` text of some faculty's `_id`, mapped to that faculty's name |
| Practicals.IdToNameCovers | Backend/modules/timetable_generator.py:131-132 | the `str()` text of every faculty's `_id` is a key of the map |
| Practicals.NumericIdMatchesText | Backend/modules/timetable_generator.py:131-147 | a faculty whose `_id` is a number takes the workload whose `faculty_id` is that number's decimal text |
| Practicals.OneWorkloadMapping | Backend/modules/timetable_generator.py:135-147 | one workload whose id text names a truthy, hashable faculty name maps that name to its subjects of the year |
| Practicals.MappingSound | Backend/modules/timetable_generator.py:122-154 | every key of the faculty map is a truthy faculty name whose list is non-empty and holds only subjects of the generator's year |
| Practicals.FacultySubjects | Backend/modules/timetable_generator.py:122-154 | empty when the faculty records are unusable, otherwise a sound mapping; workloads and faculties are joined on the `str()` text of their ids |
| Generator.TimetableGenerator.FacultySubjectsMapping | Backend/modules/timetable_generator.py:122-154 | the loop builds exactly `FacultySubjects` |
| Practicals.QualifiedIffMapped | Backend/modules/timetable_generator.py:314-327 | for a sound mapping, a faculty is qualified iff it is a key of the map: the subject is never consulted |
| Generator.TimetableGenerator.IsFacultyQualified | Backend/modules/timetable_generator.py:314-327 | `None` (the raise) iff the name is a list or dict; otherwise exactly `Qualified`: the name is a key and one of its entries has the generator's year |
| Practicals.ParseClass | Backend/modules/timetable_generator.py:185-187 | a class needs `div`; `batches` defaults to 1 |
| Practicals.ParseClasses | Backend/modules/timetable_generator.py:172-199 | defined iff every class parses, and then element by element |
| Practicals.DivisionSessions | Backend/modules/timetable_generator.py:172-199 | `n` sessions of one hour for batches 1..n of the division, named after the practical |
| Practicals.ClassStepCases | Backend/modules/timetable_generator.py:172-199 | no sessions for no batches, a failure for an unnamed practical, otherwise the division's sessions |
| Practicals.SessionsCount | Backend/modules/timetable_generator.py:172-199 | the sessions number \|practicals\| times the sum of the classes' batches |
| Practicals.SessionsShape | Backend/modules/timetable_generator.py:172-199 | every session lasts one hour, belongs to the year and has a batch of at least 1 |
| Practicals.SessionsNoneWhen | Backend/modules/timetable_generator.py:172-199 | preparation fails exactly when a class does not parse or a practical with batches to fill has no name |
| Practicals.SessionsFailAt | Backend/modules/timetable_generator.py:172-199 | one failing practical and class make the whole preparation fail |
| Generator.TimetableGenerator.PrepareBatchAssignments | Backend/modules/timetable_generator.py:172-199 | the nested loops produce exactly `Prepare` of the practicals and the year's classes |
| Generator.TimetableGenerator.PracticalBatches | Backend/modules/timetable_generator.py:185-197 | the inner loop over the classes produces exactly the practical's sessions |
| Generator.TimetableGenerator.ClassBatches | Backend/modules/timetable_generator.py:186-197 | the innermost loop produces exactly one division's sessions |
| Generator.EmptyGrid | Backend/modules/timetable_generator.py:209-217 | every lab name, and only those, gets an empty list in each of the 5 days and 3 periods |
| Generator.EmptyGridSnoc | Backend/modules/timetable_generator.py:210-217 | one more turn of the lab loop adds that lab's empty week |
| Generator.InitialGrid | Backend/modules/timetable_generator.py:201-217 | `None` (the raise) iff some lab name is a list or dict; otherwise every lab name, and only those, with an empty week |
| Generator.TimetableGenerator.InitializeTimetable | Backend/modules/timetable_generator.py:201-217 | raises iff some lab name is a list or dict, leaving the labs before it; otherwise the grid becomes `InitialGrid(labs)`; the sessions list is untouched |
| Generator.TimetableGenerator.NewWeek | Backend/modules/timetable_generator.py:214-217 | the loops build an empty list for every day and period |
| Generator.TimetableGenerator.HasBatchConflict | Backend/modules/timetable_generator.py:277-292 | true iff some lab holds an entry of the same class, division and batch in that cell |
| Generator.TimetableGenerator.HasLabConflict | Backend/modules/timetable_generator.py:294-302 | true iff the lab's cell is not empty |
| Generator.TimetableGenerator.HasFacultyConflict | Backend/modules/timetable_generator.py:304-312 | true iff some lab holds an entry of that faculty in that cell |
| Generator.TimetableGenerator.IsValidAssignment | Backend/modules/timetable_generator.py:260-275 | true iff none of the three conflicts holds |
| Generator.TimetableGenerator.MakeAssignment | Backend/modules/timetable_generator.py:329-351 | the entry goes into the lab's cell and the placement is appended to the assignments |
| Generator.TimetableGenerator.UndoAssignment | Backend/modules/timetable_generator.py:353-362 | the lab's cell loses its last entry and the last assignment is popped |
| Schedule.UnplaceAfterPlace | Backend/modules/timetable_generator.py:329-362 | undoing a placement restores the grid exactly |
| Schedule.EmptyHasNoConflicts | Backend/modules/timetable_generator.py:201-217 | a grid of empty cells keeps every hard constraint |
| Schedule.PlaceKeepsNoConflicts | Backend/modules/timetable_generator.py:241-275 | placing where `IsValidAssignment` holds keeps one entry per lab cell and no batch or faculty twice in a cell |
| Schedule.PlaceKeepsOnePerCell | Backend/modules/timetable_generator.py:294-302 | placing into an empty lab cell keeps at most one entry per lab cell |
| Schedule.PlaceKeepsLabsApart | Backend/modules/timetable_generator.py:277-312 | placing a session free of batch and faculty conflicts keeps clashing entries in different cells |
| Schedule.PlaceAllKeeps | Backend/modules/timetable_generator.py:342-343 | placements only append: an entry in a cell stays there |
| Schedule.PlaceAllHolds | Backend/modules/timetable_generator.py:342-343 | a placement whose lab is in the grid leaves its entry in that lab's cell |
| Schedule.PlacedAlone | Backend/modules/timetable_generator.py:364-377 | on a grid that passes the final check, a placement's entry is the one entry of its lab's cell |
| Schedule.NoConflictsPassesFinalCheck | Backend/modules/timetable_generator.py:364-377 | a grid that keeps the constraints passes the final check |
| Generator.TimetableGenerator.ValidateFinalTimetable | Backend/modules/timetable_generator.py:364-377 | true iff every lab cell holds at most one entry |
| Generator.TimetableGenerator.BacktrackAssign | Backend/modules/timetable_generator.py:219-258 | when every choice fails, grid and assignments are as before; a raise needs a list or dict faculty name; on success sessions index.. are placed in order, each in one of the labs with a qualified faculty, conflict free |
| Generator.TimetableGenerator.TryPlacement | Backend/modules/timetable_generator.py:226-258 | the body of the loops over days, periods, labs and faculties keeps the same promise as the search |
| Generator.TimetableGenerator.Generate | Backend/modules/timetable_generator.py:30-79 | `None` without practicals, labs, faculties, a faculty map or sessions, and when a lab name raises; a result places every session, in order, each the one entry of its lab's cell, conflict free |
| Generator.EachPlacedAlone | Backend/modules/timetable_generator.py:219-258 | after a search that passes the final check, every placement's entry is the only entry of its lab's cell |
| Generator.GenerateTimetable | Backend/modules/timetable_generator.py:407-414 | `None` unless `year` and `sem` are truthy; a result is for that year and semester and keeps the constraints |
| TimingsStep.LoadTimings | Frontend/src/components/generate-steps/DepartmentTimings.jsx:17-28 | with nothing stored the form stays; otherwise it has exactly the four fields, each the stored value (`undefined` when missing), with `breaks` as `timings.breaks \|\| []` |
| TimingsStep.BreaksOf | Frontend/src/components/generate-steps/DepartmentTimings.jsx:25 | the stored breaks, or `[]` when they are falsy |
| TimingsStep.HandleChange | Frontend/src/components/generate-steps/DepartmentTimings.jsx:30-32 | only the named field changes |
| TimingsStep.AddBreak | Frontend/src/components/generate-steps/DepartmentTimings.jsx:34-39 | exactly one blank break is appended, the others and the other fields unchanged |
| TimingsStep.RemoveBreak | Frontend/src/components/generate-steps/DepartmentTimings.jsx:41-46 | only position i goes, the rest in order; an index out of range changes nothing |
| TimingsStep.UpdateBreak | Frontend/src/components/generate-steps/DepartmentTimings.jsx:48-55 | same length; only break i changes, and only its field f |
| TimingsStep.WithField | Frontend/src/components/generate-steps/DepartmentTimings.jsx:52 | the spread break with the one field set |
| TimingsStep.RemoveAddedBreak | Frontend/src/components/generate-steps/DepartmentTimings.jsx:34-46 | removing the break just added gives the form back |
| TimingsStep.UpdateBreakSameValue | Frontend/src/components/generate-steps/DepartmentTimings.jsx:48-55 | writing a field's own value changes nothing |
| TimingsStep.TimingsView.Save | Frontend/src/components/generate-steps/DepartmentTimings.jsx:57-61 | the whole form is upserted as the single timings record and handed on as `timings`; nothing else changes |
| TimingsStep.LoadAfterSave | Frontend/src/components/generate-steps/DepartmentTimings.jsx:17-61 | loading after a save gives back the saved form, whatever was stored before |
| SubjectsStep.SubjectsStepView.ToggleLab | src/components/generate-steps/SubjectsStep.jsx:41-48 | a chosen lab id leaves the list entirely, an unchosen one is appended |
| Seqs.Toggle | src/components/generate-steps/SubjectsStep.jsx:41-48 | removes every occurrence of a present element, otherwise appends it |
| Seqs.ToggleTwice | src/components/generate-steps/SubjectsStep.jsx:41-48 | toggling an absent element twice gives the list back |
| Seqs.ToggleOffKeepsOrder | src/components/generate-steps/SubjectsStep.jsx:45 | removal keeps the other elements in order and drops exactly the occurrences |
| SubjectsStep.LabNames | src/components/generate-steps/SubjectsStep.jsx:105-111 | "None" for a missing or empty id list |
| SubjectsStep.LabNamesListChosen | src/components/generate-steps/SubjectsStep.jsx:105-111 | splitting the text on ", " gives the short forms of the chosen labs, in lab order, and a lab is chosen iff its id is listed |
| SubjectsStep.LabNamesUnknownOnly | src/components/generate-steps/SubjectsStep.jsx:105-111 | ids of no lab are skipped, so a list of only such ids reads as "" |
| SubjectsStep.PracticalTypeLabel | src/components/generate-steps/SubjectsStep.jsx:113-124 | the three known types get their labels, anything else comes back unchanged |
| SubjectsStep.PracticalTypeLabelTwice | src/components/generate-steps/SubjectsStep.jsx:113-124 | labelling twice is labelling once |
| SubjectsStep.RecordWith | src/components/generate-steps/SubjectsStep.jsx:68-74 | the record holds the form's fields, `year` when the form has none, and the three counts passed through the parser |
| SubjectsStep.NumericCountsKept | src/components/generate-steps/SubjectsStep.jsx:68-74 | counts that are already numbers are submitted unchanged |
| SubjectsStep.EditForm | src/components/generate-steps/SubjectsStep.jsx:50-63 | the form takes the subject's fields, with defaults for a falsy practical type or lab list |
| SubjectsStep.EditStoredRecord | src/components/generate-steps/SubjectsStep.jsx:50-63 | editing a stored subject fills the form with its own fields |
| SubjectsStep.ResubmitUnchanged | src/components/generate-steps/SubjectsStep.jsx:50-80 | editing a submitted subject and submitting again writes the same record |
| SubjectsStep.SubmittedIsOfYear | src/components/generate-steps/SubjectsStep.jsx:76-80 | a new subject becomes one more subject of the selected year |
| SubjectsStep.SubmittedEditKeepsCount | src/components/generate-steps/SubjectsStep.jsx:76-80 | submitting an edit neither adds nor removes a subject |
| SubjectsStep.SubjectsStepView.HandleSubmit | src/components/generate-steps/SubjectsStep.jsx:65-96 | update when editing, else insert; then the form resets to the defaults, nothing is edited, the list reloads |
| SubjectsStep.SubjectsStepView.HandleEdit | src/components/generate-steps/SubjectsStep.jsx:50-63 | the form becomes `EditForm(subject)`, the subject's id is edited, the form opens |
| SubjectsStep.SubjectsStepView.HandleDelete | src/components/generate-steps/SubjectsStep.jsx:98-103 | once confirmed, the id's subjects go and the list reloads; otherwise nothing changes |
| SubjectsStep.SubjectsStepView.LoadSubjects | src/components/generate-steps/SubjectsStep.jsx:27-30 | the year's subjects, newest first |
| SubjectsStep.SubjectsStepView.SelectYear | src/components/generate-steps/SubjectsStep.jsx:22-25 | a new year reloads its subjects and the labs |
| Ui.Newest | src/components/generate-steps/SubjectsStep.jsx:29 | a permutation of the records ordered by descending `created_at` |
| Ui.NewerFirstIsTotal | src/components/generate-steps/SubjectsStep.jsx:29 | the comparator is a total preorder, so the sort is well defined |
| Seqs.SortBySorted | src/components/generate-steps/SubjectsStep.jsx:29 | sorting by a total preorder gives a sorted sequence |
| FacultyData.FacultyDataView.ToggleYear | Frontend/src/components/FacultyData.jsx:61-68 | a chosen year leaves the list, an unchosen one is appended |
| FacultyData.YearsSplitJoin | Frontend/src/components/FacultyData.jsx:27-48 | splitting the joined years on ", " gives back any non-empty list of plain years |
| Text.SplitJoinRoundTrip | Frontend/src/components/FacultyData.jsx:27-48 | `split(", ")` undoes `join(", ")` for non-empty lists of comma-free texts |
| Text.SplitJoinEmpty | Frontend/src/components/FacultyData.jsx:27-48 | the empty list comes back as `[""]` |
| FacultyData.EditAfterSubmit | Frontend/src/components/FacultyData.jsx:24-52 | editing a submitted faculty gives back the form that was submitted |
| FacultyData.EditAfterSubmitNoYears | Frontend/src/components/FacultyData.jsx:24-52 | a faculty submitted with no years comes back with the single year "" |
| FacultyData.SubmittedCount | Frontend/src/components/FacultyData.jsx:32-36 | an insert adds one faculty, an update none |
| FacultyData.FacultyDataView.HandleSubmit | Frontend/src/components/FacultyData.jsx:24-42 | update when editing, else insert; the form resets to Prof, "", [] and the list reloads |
| FacultyData.FacultyDataView.HandleEdit | Frontend/src/components/FacultyData.jsx:44-52 | the form takes title, name and the split years; the faculty's id is edited |
| FacultyData.FacultyDataView.HandleDelete | Frontend/src/components/FacultyData.jsx:54-59 | once confirmed, the id's faculty go and the list reloads; otherwise nothing changes |
| FacultyData.FacultyDataView.LoadFaculties | Frontend/src/components/FacultyData.jsx:19-22 | all faculty, newest first |
| TheoryAssignment.DivisionCodes | Frontend/src/components/generate-steps/TheoryAssignment.jsx:94-99 | `[]` without a structure, otherwise `num_divisions` UTF-16 codes |
| TheoryAssignment.DivisionsFromA | Frontend/src/components/generate-steps/TheoryAssignment.jsx:94-99 | the codes are consecutive from 'A', strictly increasing, letters for up to 26 divisions |
| TheoryAssignment.DefaultDivisionOffered | Frontend/src/components/generate-steps/TheoryAssignment.jsx:14-19 | the form's default division 'A' is offered whenever there is a division |
| Ui.ToLength | Frontend/src/components/generate-steps/TheoryAssignment.jsx:96 | `Array.from` reads a negative or non-numeric length as 0 |
| TheoryAssignment.AssignmentRecord | Frontend/src/components/generate-steps/TheoryAssignment.jsx:62-67 | the form's fields, the current year, `assignment_type` "theory" and the parsed hours |
| TheoryAssignment.SubmittedIsListed | Frontend/src/components/generate-steps/TheoryAssignment.jsx:69-84 | a new assignment becomes one more theory assignment of the year |
| TheoryAssignment.SubmittedEditIsListed | Frontend/src/components/generate-steps/TheoryAssignment.jsx:69-84 | an edit keeps the count and the edited assignment is a theory assignment of the year |
| TheoryAssignment.EditAfterSubmit | Frontend/src/components/generate-steps/TheoryAssignment.jsx:48-67 | editing a submitted assignment gives back the form |
| TheoryAssignment.TheoryAssignmentView.HandleSubmit | Frontend/src/components/generate-steps/TheoryAssignment.jsx:59-85 | update when editing, else insert; the form resets and the list reloads |
| TheoryAssignment.TheoryAssignmentView.HandleEdit | Frontend/src/components/generate-steps/TheoryAssignment.jsx:48-57 | the form takes the assignment's four fields; its id is edited |
| TheoryAssignment.TheoryAssignmentView.HandleDelete | Frontend/src/components/generate-steps/TheoryAssignment.jsx:87-92 | once confirmed, the id's assignments go and the list reloads |
| TheoryAssignment.TheoryAssignmentView.LoadSubjects | Frontend/src/components/generate-steps/TheoryAssignment.jsx:33-36 | exactly the year's subjects of class type Theory or Both |
| TheoryAssignment.TheoryAssignmentView.LoadFaculties | Frontend/src/components/generate-steps/TheoryAssignment.jsx:28-31 | all faculty ordered by `full_name` |
| TheoryAssignment.TheoryAssignmentView.LoadStructure | Frontend/src/components/generate-steps/TheoryAssignment.jsx:38-41 | the year's class structure |
| TheoryAssignment.TheoryAssignmentView.LoadAssignments | Frontend/src/components/generate-steps/TheoryAssignment.jsx:43-46 | the year's theory assignments, joined |
| TheoryAssignment.TheoryAssignmentView.SelectYear | Frontend/src/components/generate-steps/TheoryAssignment.jsx:21-26 | a new year reloads all four lists |
| Ui.Alphabetical | Frontend/src/components/generate-steps/TheoryAssignment.jsx:30 | a permutation of the records ordered by `full_name` |
| Ui.ByFullNameIsTotal | Frontend/src/components/generate-steps/TheoryAssignment.jsx:30 | the name order is a total preorder |
| ClassStructure.ClassStructureView.GetTotalBatches | src/components/ClassStructure.jsx:41-44 | `Times` of the two counts: a number iff both counts convert to numbers |
| Ui.Times | src/components/ClassStructure.jsx:41-44 | the product of the two numbers, NaN when either is not a number |
| Ui.TimesCommutes | src/components/ClassStructure.jsx:41-44 | the product does not depend on the operand order |
| Ui.ToNumber | src/components/ClassStructure.jsx:43 | numbers are themselves, null is 0, undefined, NaN and objects are NaN |
| Ui.NumberRoundTrip | src/components/ClassStructure.jsx:43 | `Number(String(n)) == n` for every integer |
| ClassStructure.ParseIntOrZero | src/components/ClassStructure.jsx:36 | always a number: `parseInt(value)`, or 0 when that is NaN |
| ClassStructure.ParseIntOrZeroTwice | src/components/ClassStructure.jsx:36 | applying it twice is applying it once |
| ClassStructure.Changed | src/components/ClassStructure.jsx:31-39 | only the named field of the named year changes |
| ClassStructure.ClassStructureView.HandleChange | src/components/ClassStructure.jsx:31-39 | the structures become `Changed` with the parsed value; the year joins the key order if new |
| ClassStructure.TotalOfTypedCounts | src/components/ClassStructure.jsx:31-44 | after both counts are typed, the total is their product |
| ClassStructure.StructureData | src/components/ClassStructure.jsx:48-52 | the two counts and `total_batches` as their product, and no `year` |
| ClassStructure.SavedAllStoresEachYear | src/components/ClassStructure.jsx:46-55 | after saving, each year's record holds that year's counts and their product |
| ClassStructure.SavedAllOnePerYear | src/components/ClassStructure.jsx:46-55 | saving keeps at most one record per year |
| ClassStructure.ClassStructureView.HandleSave | src/components/ClassStructure.jsx:46-55 | the store becomes the upserts of every year, in key order; nothing else changes |
| ClassStructure.LoadedYears | src/components/ClassStructure.jsx:16-29 | the loaded map has exactly the years of the stored records |
| ClassStructure.LoadedTakesLast | src/components/ClassStructure.jsx:16-29 | a year stored more than once takes the counts of its last record |
| ClassStructure.LoadKeepsUnstored | src/components/ClassStructure.jsx:16-29 | a year with no stored record keeps its value |
| ClassStructure.ClassStructureView.LoadStructures | src/components/ClassStructure.jsx:16-29 | nothing changes when nothing is stored, otherwise the stored counts overlay the structures |
| ClassStructure.AddKeysKeepsDistinct | src/components/ClassStructure.jsx:27 | the key order lists each year once, and exactly the old and the loaded years |
| ViewTimetables.GroupBy | Frontend/src/components/ViewTimetables.jsx:22-30 | exactly the three buckets, each the timetables of its year, in order |
| ViewTimetables.ViewTimetablesView.GroupByYear | Frontend/src/components/ViewTimetables.jsx:22-30 | the same, over the searched timetables |
| ViewTimetables.BucketIsOfYear | Frontend/src/components/ViewTimetables.jsx:24-28 | a bucket is an ordered subsequence and holds exactly the timetables of its year |
| ViewTimetables.LandsInOneBucket | Frontend/src/components/ViewTimetables.jsx:24-28 | a timetable of a known year is in that bucket and no other |
| ViewTimetables.BucketSizes | Frontend/src/components/ViewTimetables.jsx:22-30 | the bucket sizes sum to at most the count, with equality iff every year is known |
| ViewTimetables.BucketsPartitionKnown | Frontend/src/components/ViewTimetables.jsx:22-30 | the bucket sizes sum to the number of timetables of known years |
| ViewTimetables.ViewTimetablesView.SetAcademicYear | Frontend/src/components/ViewTimetables.jsx:50 | the academic year becomes the input's value and nothing else changes |
| ViewTimetables.ViewTimetablesView.SetSemester | Frontend/src/components/ViewTimetables.jsx:62 | the semester becomes the selected value and nothing else changes |
| ViewTimetables.ViewTimetablesView.HandleSearch | Frontend/src/components/ViewTimetables.jsx:11-20 | an empty academic year changes nothing, otherwise the results are the matching timetables and are shown |
| Wizard.Next | src/components/GenerateTimetable.jsx:26-30 | one step on below the last step, otherwise unchanged |
| Wizard.Previous | src/components/GenerateTimetable.jsx:32-36 | one step back above the first step, otherwise unchanged |
| Wizard.MovesStayInRange | src/components/GenerateTimetable.jsx:17-36 | both moves keep the step within 1..4 |
| Wizard.NextPreviousUndo | src/components/GenerateTimetable.jsx:26-36 | a move that changes the step is undone by the other move |
| Wizard.AdvanceStopsAtLast | src/components/GenerateTimetable.jsx:26-30 | n steps forward reach min(step + n, 4) |
| Wizard.GenerateTimetableView.Current | src/components/GenerateTimetable.jsx:24 | the component shown is the step numbered `currentStep` |
| Wizard.GenerateTimetableView.HandleNext | src/components/GenerateTimetable.jsx:26-30 | the step becomes `Next` of the old one and stays in range |
| Wizard.GenerateTimetableView.HandlePrevious | src/components/GenerateTimetable.jsx:32-36 | the step becomes `Previous` of the old one and stays in range |
| Wizard.GenerateTimetableView.HandleStepData | src/components/GenerateTimetable.jsx:38-43 | only key k of the form data is replaced |
| Mongo.Collection.FindOne | Backend/modules/labs_handler.py:25 | `None` iff no document matches, otherwise a matching document of the collection |
| Mongo.WithoutIds | Backend/modules/labs_handler.py:8-13 | every document, in order, without its `_id` |
| Handlers.AddNamed | Backend/modules/labs_handler.py:17-36 | `add_lab` and `add_faculty` (Backend/modules/faculty_handler.py:17-36, the same code): 400 and no change for a falsy name or short name or a taken name; otherwise the pair is appended |
| Handlers.NamedInsertKeepsDistinct | Backend/modules/labs_handler.py:24-33 | inserting a name nobody has keeps names distinct |
| Handlers.DeleteNamed | Backend/modules/labs_handler.py:40-52 | `delete_lab` and `delete_faculty` (Backend/modules/faculty_handler.py:40-52): 400 for a falsy name, 404 when nothing matches, otherwise the first match goes |
| Mongo.DropFirstRemovesOne | Backend/modules/labs_handler.py:47-50 | with a match, exactly one matching document is removed and nothing else |
| Mongo.Collection.DeleteOne | Backend/modules/labs_handler.py:47-48 | 0 deleted iff no match, at most 1; the first match goes |
| Handlers.UpdateNamed | Backend/modules/labs_handler.py:56-69 | `update_lab` and `update_faculty` (Backend/modules/faculty_handler.py:56-69): 400 for a falsy name or updates, 500 for updates that are no document, 404 for no match, else the first match gets the fields |
| Mongo.SetFirst | Backend/modules/labs_handler.py:64 | same length; only the first match changes, by `$set` |
| Handlers.UpdateCanDuplicate | Backend/modules/labs_handler.py:64 | renaming one of two labs to the other's name leaves two labs with one name |
| Handlers.ConfirmLabs | Backend/modules/labs_handler.py:73-92 | 400 for a falsy list, 500 for a non-list; otherwise every named lab gets `confirmed`, the others unchanged, and the count of changed labs is reported |
| Mongo.SetWhereAny | Backend/modules/labs_handler.py:84-87 | same length; matched documents get the fields, the others are unchanged |
| Mongo.ModifiedAtMostMatched | Backend/modules/labs_handler.py:84-89 | `modified_count` never exceeds `matched_count` |
| Mongo.SetWhereAnyTwice | Backend/modules/labs_handler.py:84-89 | confirming the same labs again changes nothing and modifies none |
| Mongo.Collection.UpdateManyIn | Backend/modules/labs_handler.py:84-87 | the documents become `SetWhereAny`; matched and modified are the two counts |
| Handlers.SaveFacultyWorkload | Backend/modules/workload_handler.py:8-46 | 400 for a falsy name or subjects, 404 for an unknown faculty, each without change; otherwise the faculty's workloads are replaced |
| Handlers.ReplacedHoldsOne | Backend/modules/workload_handler.py:34-41 | the faculty then has exactly one workload record, the new one; the other faculty's records are as they were |
| Mongo.Collection.DeleteMany | Backend/modules/workload_handler.py:35 | exactly the non-matching documents stay, in order |

## Left out

- Reading `localStorage` and `JSON.parse` are a map from collection to slot. A slot either parses or is corrupt. A refused write is the store's `accepting` flag: such a write changes nothing. `console.error` is not modelled.
- Ids and timestamps are parameters. `generateId` and `new Date().toISOString()` are not modelled, and ids are not assumed unique.
- Storage.Stamped: one `now` stands for both `created_at` and `updated_at`. The source reads the clock twice, so the two may differ by a millisecond.
- Storage.LocalStore.Save: stored values are not normalised by `JSON.stringify`. The source writes `NaN` as `null` and drops fields whose value is `undefined`, so a count submitted as `NaN` reads back as `null`. The model reads back the values as saved.
- Record ids are strings. The store compares ids with `===`, and a record whose id is not a string never matches.
- Store records whose `created_at` is no ISO text are left out. Sorting compares `created_at` as text. For ISO timestamps of one format this is the order of `new Date(...)` subtraction.
- Ui.Alphabetical: `localeCompare` is approximated by code-point order. Locale collation is not modelled. A `full_name` that is not a string is read as "" (Ui.FullName), where `a.full_name.localeCompare` throws a `TypeError` in the source.
- Ui.ToNumber: decimal fractions, exponents, `Infinity`, `0b` and `0o` numerals are not modelled, because numbers are integers. `parseFloat` is a function parameter of the theory assignment submit for the same reason.
- JSON numbers are integers. Floating point is not modelled.
- Object key order is modelled as insertion order. Integer-like keys, which JavaScript lists first, do not occur among the year names.
- ViewTimetables.GroupBy: a year named after an inherited property such as `constructor` is not modelled. In the source such a year reaches a truthy prototype member.
- TheoryAssignment.DivisionCodes: codes are returned as numbers. The `RangeError` of `Array.from` for lengths of 2^32 or more is not modelled.
- TimingsStep.WithField: spreading a string or array break into an object is modelled as an empty spread.
- React rendering, hooks, `alert` and message texts are not modelled. `confirm` is a boolean parameter of the delete methods.
- The "Generate Timetable" button in the wizard (src/components/GenerateTimetable.jsx:137-141) has no handler, so there is nothing to model.
- Flask, `jsonify` and message texts are not modelled. A response is its status.
- Exceptions are modelled only where the handler's own input causes them: `$set` with updates that are no document, and `$in` with a value that is no list. Other database failures (500) are not modelled.
- Handlers.UpdateNamed: `$set` updates with dotted, `$`-prefixed or `_id` keys are taken as plain fields.
- Mongo.Matches: filters whose value is an operator document, such as `{"$gt": 1}`, are compared as literal values. Equality of values is structural.
- Handlers.SaveFacultyWorkload: `find_one`'s empty-dict falsiness is not modelled, because a matched faculty always has a truthy name. The two collections must be distinct objects.
- Generator.TimetableGenerator.Generate: the MongoDB reads of `_load_practicals`, `_get_available_labs`, `_get_all_faculties`, the workloads and the class document are parameters.
- Logging is not modelled.
- `save_to_database` (Backend/modules/timetable_generator.py:379-404) is not modelled. It writes the result with `datetime.now()`, and the generator's entry point does not depend on it.
- Recursion depth and running time of the search are not modelled. `BacktrackAssign` terminates because each level places one more session.
- Practicals.YearSubjects: the year key is lowered with an ASCII-only `lower()`.
- Practicals.IdText: the `repr()` text that `str()` gives a list or dict id is not computed; such an id is compared as a value. A MongoDB `ObjectId` is represented by its `str()` text. The workload handler stores a faculty's own `_id` as `faculty_id` (Backend/modules/workload_handler.py:32-39), so both sides have the same text.
- Python's equality of `True` with `1` and `False` with `0` is not modelled: as dict keys and in `==` comparisons, a boolean and a number are different values. Nor is a float `nan`, which Python's `==` finds unequal to itself: `Values.NaN` equals itself, so the conflict checks of the generator report a conflict for two NaN faculty names or batch values where the source finds none.
- The unused `num_batches` (Backend/modules/timetable_generator.py:183) is not modelled.
- The back end names years SY/TY/BE and the front end SY/TY/Final Year. Both are kept as they are.
- src/components/LabsData.jsx, Frontend/src/components/Sidebar.jsx and src/App.jsx are not part of this model. They are thin callers of the store and navigation.
- Backend/app.py, Backend/modules/timetable_handler.py, Backend/modules/subjects_handler.py, Backend/modules/class_structure_handler.py and Backend/test.py are not part of this model. They are routing, orchestration, delete-and-insert wrappers and debug output.
