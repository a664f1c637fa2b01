/**
 * Step 4 of the timetable wizard
 * (Frontend/src/components/generate-steps/TheoryAssignment.jsx): which
 * faculty teaches which theory subject to which division of a year, and for
 * how many hours.
 */
module TheoryAssignment {
  import opened Values
  import opened Seqs
  import opened Storage
  import opened Ui

  /** The form the step starts from and returns to after every submit. */
  const DefaultForm: Record := map[
    "faculty_id" := Str(""),
    "subject_id" := Str(""),
    "division" := Str("A"),
    "workload_hours" := Num(0)]

  /** The class types a theory assignment may name. */
  const TheoryTypes: seq<Value> := [Str("Theory"), Str("Both")]

  /** How many divisions `getDivisions` lists: none without a structure, else `num_divisions` as `Array.from` reads a length. */
  function DivisionCount(structure: Option<Record>): nat
  {
    if structure.None? then 0 else ToLength(Get(structure.value, "num_divisions"))
  }

  /**
   * `getDivisions`: the UTF-16 code of `String.fromCharCode(65 + i)` for each
   * division `i`; `fromCharCode` keeps its argument modulo 65536.
   */
  function DivisionCodes(structure: Option<Record>): (r: seq<int>)
    ensures structure.None? ==> r == []
    ensures |r| == DivisionCount(structure)
    ensures forall i :: 0 <= i < |r| ==> 0 <= r[i] < 65536
  {
    seq(DivisionCount(structure), i => (65 + i) % 65536)
  }

  /**
   * Up to 65471 divisions are the consecutive codes from 'A', all different
   * and in increasing order; up to 26 they are the capital letters.
   */
  lemma DivisionsFromA(structure: Option<Record>)
    requires DivisionCount(structure) <= 65471
    ensures forall i :: 0 <= i < |DivisionCodes(structure)| ==> DivisionCodes(structure)[i] == 'A' as int + i
    ensures forall i, j :: 0 <= i < j < |DivisionCodes(structure)| ==> DivisionCodes(structure)[i] < DivisionCodes(structure)[j]
    ensures DivisionCount(structure) <= 26 ==>
      forall i :: 0 <= i < |DivisionCodes(structure)| ==> 'A' as int <= DivisionCodes(structure)[i] <= 'Z' as int
  {
    var r := DivisionCodes(structure);
    forall i | 0 <= i < |r|
      ensures r[i] == 'A' as int + i
    {
      assert r[i] == (65 + i) % 65536;
    }
  }

  /** The form's default division "A" is offered whenever the year has a division. */
  lemma DefaultDivisionOffered(structure: Option<Record>)
    requires DivisionCount(structure) >= 1
    ensures DivisionCodes(structure)[0] == DefaultForm["division"].s[0] as int
  {
  }

  /**
   * The record a submit stores, `{ ...form, year, assignment_type: 'theory',
   * workload_hours: parse(form.workload_hours) }`, where the component's
   * `parse` is `parseFloat`.
   */
  function AssignmentRecord(year: string, form: Record, parse: Value -> Value): (r: Record)
    ensures r.Keys == form.Keys + {"year", "assignment_type", "workload_hours"}
    ensures r["year"] == Str(year) && r["assignment_type"] == Str("theory")
    ensures r["workload_hours"] == parse(Get(form, "workload_hours"))
    ensures forall k :: k in form && k !in {"year", "assignment_type", "workload_hours"} ==> r[k] == form[k]
  {
    form["year" := Str(year)]["assignment_type" := Str("theory")]["workload_hours" := parse(Get(form, "workload_hours"))]
  }

  /**
   * The assignment collection after a submit: the assignment being edited is
   * updated in place, otherwise one stamped record is appended; a store that
   * rejects writes keeps what it had.
   */
  function Submitted(all: seq<Record>, editing: Option<string>, year: string, form: Record, parse: Value -> Value,
                     id: string, now: string, accepting: bool): seq<Record>
  {
    if !accepting then all
    else if editing.Some? then UpdateFirst(all, editing.value, AssignmentRecord(year, form, parse), now)
    else all + [Stamped(AssignmentRecord(year, form, parse), id, now)]
  }

  /** A new assignment is listed among the year's theory assignments, one more than before. */
  lemma SubmittedIsListed(all: seq<Record>, year: string, form: Record, parse: Value -> Value, id: string, now: string)
    ensures |Filter(IsOfYearAndType(year, "theory"), Submitted(all, None, year, form, parse, id, now, true))|
         == |Filter(IsOfYearAndType(year, "theory"), all)| + 1
  {
    var r := Stamped(AssignmentRecord(year, form, parse), id, now);
    assert IsOfYearAndType(year, "theory")(r);
    FilterAppend(IsOfYearAndType(year, "theory"), all, [r]);
  }

  /** An edited assignment keeps the count and is afterwards a theory assignment of the current year. */
  lemma SubmittedEditIsListed(all: seq<Record>, editing: string, year: string, form: Record, parse: Value -> Value, id: string, now: string)
    requires 0 <= FindIndex(HasId(editing), all)
    ensures |Submitted(all, Some(editing), year, form, parse, id, now, true)| == |all|
    ensures IsOfYearAndType(year, "theory")(Submitted(all, Some(editing), year, form, parse, id, now, true)[FindIndex(HasId(editing), all)])
  {
    var i := FindIndex(HasId(editing), all);
    var t := Touched(all[i], AssignmentRecord(year, form, parse), now);
    assert Submitted(all, Some(editing), year, form, parse, id, now, true)[i] == t;
    assert Get(t, "year") == Str(year) && Get(t, "assignment_type") == Str("theory");
  }

  /** The form `handleEdit` fills from an assignment: its four form fields. */
  function EditForm(assignment: Record): (f: Record)
    ensures f.Keys == DefaultForm.Keys
    ensures forall k :: k in DefaultForm ==> f[k] == Get(assignment, k)
  {
    map[
      "faculty_id" := Get(assignment, "faculty_id"),
      "subject_id" := Get(assignment, "subject_id"),
      "division" := Get(assignment, "division"),
      "workload_hours" := Get(assignment, "workload_hours")]
  }

  /** Submitting a form and editing what was stored gives the form back when the hours were already parsed. */
  lemma EditAfterSubmit(year: string, form: Record, parse: Value -> Value, id: string, now: string)
    requires form.Keys == DefaultForm.Keys
    requires parse(form["workload_hours"]) == form["workload_hours"]
    ensures EditForm(Stamped(AssignmentRecord(year, form, parse), id, now)) == form
  {
    var rec := AssignmentRecord(year, form, parse);
    assert forall k :: k in DefaultForm ==> k in rec && rec[k] == form[k];
    assert forall k :: k in DefaultForm ==> k != "id" && k != "created_at" && k != "updated_at";
    EditOfFields(Stamped(rec, id, now), form);
  }

  /** `handleEdit` reads back exactly the form fields a record holds. */
  lemma EditOfFields(saved: Record, form: Record)
    requires form.Keys == DefaultForm.Keys
    requires forall k :: k in DefaultForm ==> k in saved && saved[k] == form[k]
    ensures EditForm(saved) == form
  {
    assert "faculty_id" in DefaultForm && "subject_id" in DefaultForm && "division" in DefaultForm && "workload_hours" in DefaultForm;
  }

  class TheoryAssignmentView {
    const store: LocalStore
    var year: string
    var faculties: seq<Record>
    var subjects: seq<Record>
    var structure: Option<Record>
    var assignments: seq<Record>
    var showForm: bool
    /** The id of the assignment being edited; `None` while adding. */
    var editingId: Option<string>
    var form: Record

    constructor (store: LocalStore)
      ensures this.store == store && year == "SY" && faculties == [] && subjects == [] && structure == None && assignments == []
      ensures !showForm && editingId == None && form == DefaultForm
    {
      this.store := store;
      year := "SY";
      faculties := [];
      subjects := [];
      structure := None;
      assignments := [];
      showForm := false;
      editingId := None;
      form := DefaultForm;
    }

    /** `loadFaculties`: every faculty, alphabetically by full name. */
    method LoadFaculties()
      modifies this`faculties
      ensures faculties == Alphabetical(store.GetAll(Faculties))
    {
      faculties := Alphabetical(store.GetAll(Faculties));
    }

    /** `loadSubjects`: exactly the year's subjects whose class type is Theory or Both, in stored order. */
    method LoadSubjects()
      modifies this`subjects
      ensures subjects == store.SubjectsOfYearAndType(year, TheoryTypes)
    {
      subjects := store.SubjectsOfYearAndType(year, TheoryTypes);
    }

    /** `loadStructure`: the year's class structure, if one is stored. */
    method LoadStructure()
      modifies this`structure
      ensures structure == store.ClassStructureOfYear(year)
    {
      structure := store.ClassStructureOfYear(year);
    }

    /** `loadAssignments`: the year's theory assignments, joined with their faculty and subject. */
    method LoadAssignments()
      modifies this`assignments
      ensures assignments == store.AssignmentsOfYearAndType(year, "theory")
    {
      assignments := store.AssignmentsOfYearAndType(year, "theory");
    }

    /** Choosing a year reloads all four lists (the component's effect on `year`). */
    method SelectYear(y: string)
      modifies this`year, this`faculties, this`subjects, this`structure, this`assignments
      ensures year == y
      ensures faculties == Alphabetical(store.GetAll(Faculties))
      ensures subjects == store.SubjectsOfYearAndType(y, TheoryTypes)
      ensures structure == store.ClassStructureOfYear(y)
      ensures assignments == store.AssignmentsOfYearAndType(y, "theory")
    {
      year := y;
      LoadAssignments();
      LoadStructure();
      LoadSubjects();
      LoadFaculties();
    }

    /** `getDivisions` over the loaded structure. */
    method Divisions() returns (codes: seq<int>)
      ensures codes == DivisionCodes(structure)
    {
      codes := DivisionCodes(structure);
    }

    /**
     * `handleEdit(assignment)`. An id that is not a non-empty string edits
     * nothing: store ids are strings, and the source's truthiness test on
     * `editingId` is narrowed to that.
     */
    method HandleEdit(assignment: Record)
      modifies this`form, this`editingId, this`showForm
      ensures form == EditForm(assignment) && showForm
      ensures editingId == if Get(assignment, "id").Str? && Get(assignment, "id").s != "" then Some(Get(assignment, "id").s) else None
    {
      form := EditForm(assignment);
      editingId := if Get(assignment, "id").Str? && Get(assignment, "id").s != "" then Some(Get(assignment, "id").s) else None;
      showForm := true;
    }

    /** `handleSubmit`: update when editing, insert otherwise; then the form resets and the assignments reload. */
    method HandleSubmit(parseFloat: Value -> Value, id: string, now: string)
      modifies this`form, this`editingId, this`showForm, this`assignments, store
      ensures store.accepting == old(store.accepting)
      ensures store.GetAll(FacultyAssignments) ==
        Submitted(old(store.GetAll(FacultyAssignments)), old(editingId), year, old(form), parseFloat, id, now, store.accepting)
      ensures forall d :: d != FacultyAssignments ==> store.GetAll(d) == old(store.GetAll(d))
      ensures form == DefaultForm && editingId == None && !showForm
      ensures assignments == store.AssignmentsOfYearAndType(year, "theory")
    {
      Persist(editingId, form, parseFloat, id, now);
      LoadAssignments();
      ResetForm();
    }

    /** The store half of a submit. */
    method Persist(editing: Option<string>, form: Record, parseFloat: Value -> Value, id: string, now: string)
      modifies store
      ensures store.accepting == old(store.accepting)
      ensures store.GetAll(FacultyAssignments) ==
        Submitted(old(store.GetAll(FacultyAssignments)), editing, year, form, parseFloat, id, now, store.accepting)
      ensures forall d :: d != FacultyAssignments ==> store.GetAll(d) == old(store.GetAll(d))
    {
      if editing.Some? {
        var _ := store.Update(FacultyAssignments, editing.value, AssignmentRecord(year, form, parseFloat), now);
      } else {
        var _ := store.Insert(FacultyAssignments, AssignmentRecord(year, form, parseFloat), id, now);
      }
    }

    /** The form goes back to its defaults and closes, as after a submit or on the close button. */
    method ResetForm()
      modifies this`form, this`editingId, this`showForm
      ensures form == DefaultForm && editingId == None && !showForm
    {
      form := DefaultForm;
      editingId := None;
      showForm := false;
    }

    /** `handleDelete(id)`, once the user has `confirmed` the dialog. */
    method HandleDelete(id: string, confirmed: bool)
      modifies this`assignments, store
      ensures store.accepting == old(store.accepting)
      ensures store.GetAll(FacultyAssignments) ==
        if confirmed && store.accepting then WithoutId(old(store.GetAll(FacultyAssignments)), id) else old(store.GetAll(FacultyAssignments))
      ensures forall d :: d != FacultyAssignments ==> store.GetAll(d) == old(store.GetAll(d))
      ensures !confirmed ==> assignments == old(assignments)
      ensures confirmed ==> assignments == store.AssignmentsOfYearAndType(year, "theory")
    {
      if confirmed {
        var _ := store.Delete(FacultyAssignments, id);
        LoadAssignments();
      }
    }
  }
}
