/**
 * Step 2 of the timetable wizard (src/components/generate-steps/SubjectsStep.jsx):
 * the subjects of one year, entered through a form, with the labs a
 * practical needs picked by checkbox.
 */
module SubjectsStep {
  import opened Values
  import opened Seqs
  import opened Text
  import opened Storage
  import opened Ui

  /** The form the step starts from and returns to after every submit. */
  const DefaultForm: Record := map[
    "subject_full_name" := Str(""),
    "subject_short_form" := Str(""),
    "class_type" := Str("Both"),
    "lectures_per_week" := Num(4),
    "practicals_per_week" := Num(1),
    "practical_duration" := Num(2),
    "practical_type" := Str("specific_lab"),
    "required_labs" := List([])]

  /** The three fields a submit passes through `parseInt`. */
  const CountFields: set<string> := {"lectures_per_week", "practicals_per_week", "practical_duration"}

  /**
   * The record a submit stores, `{ year, ...form }` with the three counts
   * replaced by `parse` of what the form holds. The component parses with
   * `parseInt` (`SubjectRecord`); keeping the parser a parameter separates
   * the record's shape from number parsing.
   */
  function RecordWith(year: string, form: Record, parse: Value -> Value): (r: Record)
    ensures r.Keys == form.Keys + {"year"} + CountFields
    ensures "year" !in form ==> r["year"] == Str(year)
    ensures forall f :: f in CountFields ==> r[f] == parse(Get(form, f))
    ensures forall k :: k in form && k !in CountFields ==> r[k] == form[k]
  {
    map k | k in form.Keys + {"year"} + CountFields ::
      if k in CountFields then parse(Get(form, k)) else if k in form then form[k] else Str(year)
  }

  /** `{ year, ...formData, lectures_per_week: parseInt(...), ... }`. */
  function SubjectRecord(year: string, form: Record): Record
  {
    RecordWith(year, form, ParseIntValue)
  }

  /** Counts that are already numbers are submitted unchanged, as the default form's 4, 1 and 2 are. */
  lemma NumericCountsKept(year: string, form: Record)
    requires forall f :: f in CountFields ==> Get(form, f).Num?
    ensures forall f :: f in CountFields ==> SubjectRecord(year, form)[f] == form[f]
  {
    forall f | f in CountFields
      ensures SubjectRecord(year, form)[f] == form[f]
    {
      ParseIntOfNumber(form[f].n);
    }
  }

  /** The form `handleEdit` fills from a stored subject; a falsy practical type or lab list falls back to the defaults. */
  function EditForm(subject: Record): (f: Record)
    ensures f.Keys == DefaultForm.Keys
    ensures forall k :: k in DefaultForm && k != "practical_type" && k != "required_labs" ==> f[k] == Get(subject, k)
    ensures f["practical_type"] == if JsTruthy(Get(subject, "practical_type")) then subject["practical_type"] else Str("specific_lab")
    ensures f["required_labs"] == if JsTruthy(Get(subject, "required_labs")) then subject["required_labs"] else List([])
  {
    map k | k in DefaultForm.Keys ::
      if k == "practical_type" then (if JsTruthy(Get(subject, k)) then subject[k] else Str("specific_lab"))
      else if k == "required_labs" then (if JsTruthy(Get(subject, k)) then subject[k] else List([]))
      else Get(subject, k)
  }

  /** The fields `insert` adds are none of the form's. */
  lemma StampsAreNoFormFields()
    ensures "id" !in DefaultForm && "created_at" !in DefaultForm && "updated_at" !in DefaultForm
  {
  }

  /** Editing a stored record whose practical type and lab list are set fills the form with the record's own fields. */
  lemma EditStoredRecord(rec: Record, id: string, now: string)
    requires DefaultForm.Keys <= rec.Keys
    requires JsTruthy(rec["practical_type"]) && JsTruthy(rec["required_labs"])
    ensures forall k :: k in DefaultForm ==> EditForm(Stamped(rec, id, now))[k] == rec[k]
  {
    StampsAreNoFormFields();
    var saved := Stamped(rec, id, now);
    forall k | k in DefaultForm
      ensures Get(saved, k) == rec[k]
    {
    }
  }

  /** Submitting a form that already holds what a submit of `form` wrote writes the same record again. */
  lemma SubmitOfSubmitted(year: string, form: Record, edited: Record, parse: Value -> Value)
    requires edited.Keys == form.Keys
    requires forall k :: k in form ==> edited[k] == RecordWith(year, form, parse)[k]
    requires forall v :: parse(parse(v)) == parse(v)
    ensures RecordWith(year, edited, parse) == RecordWith(year, form, parse)
  {
    var rec := RecordWith(year, form, parse);
    forall k | k in rec
      ensures RecordWith(year, edited, parse)[k] == rec[k]
    {
      if k in CountFields {
        assert parse(parse(Get(form, k))) == parse(Get(form, k));
      }
    }
  }

  /**
   * Opening a saved subject for editing and submitting it again, untouched,
   * writes the very field values the first submit wrote, for any parser that
   * leaves its own results as they are.
   */
  lemma ResubmitWith(year: string, form: Record, id: string, now: string, parse: Value -> Value)
    requires form.Keys == DefaultForm.Keys
    requires JsTruthy(form["practical_type"]) && JsTruthy(form["required_labs"])
    requires forall v :: parse(parse(v)) == parse(v)
    ensures RecordWith(year, EditForm(Stamped(RecordWith(year, form, parse), id, now)), parse) == RecordWith(year, form, parse)
  {
    var rec := RecordWith(year, form, parse);
    EditStoredRecord(rec, id, now);
    SubmitOfSubmitted(year, form, EditForm(Stamped(rec, id, now)), parse);
  }

  /** The same for `parseInt`, which reads back the numbers it returned. */
  lemma ResubmitUnchanged(year: string, form: Record, id: string, now: string)
    requires form.Keys == DefaultForm.Keys
    requires JsTruthy(form["practical_type"]) && JsTruthy(form["required_labs"])
    ensures SubjectRecord(year, EditForm(Stamped(SubjectRecord(year, form), id, now))) == SubjectRecord(year, form)
  {
    forall v
      ensures ParseIntValue(ParseIntValue(v)) == ParseIntValue(v)
    {
      ParseIntTwice(v);
    }
    ResubmitWith(year, form, id, now, ParseIntValue);
  }

  /** A new subject, once stored, is one more of its year's subjects. */
  lemma SubmittedIsOfYear(s: seq<Record>, year: string, form: Record, id: string, now: string)
    requires "year" !in form
    ensures |Filter(HasYear(year), Submitted(s, None, year, form, id, now, true))| == |Filter(HasYear(year), s)| + 1
  {
    var r := Stamped(SubjectRecord(year, form), id, now);
    assert HasYear(year)(r);
    FilterAppend(HasYear(year), s, [r]);
  }

  /** Submitting an edit never adds or removes a subject. */
  lemma SubmittedEditKeepsCount(s: seq<Record>, editingId: string, year: string, form: Record, id: string, now: string, accepting: bool)
    ensures |Submitted(s, Some(editingId), year, form, id, now, accepting)| == |s|
  {
  }

  /** The labs whose id is listed, in the order of `labs`. */
  function Chosen(labs: seq<Record>, ids: seq<Value>): seq<Record>
  {
    Filter(lab => Get(lab, "id") in ids, labs)
  }

  function ShortForms(labs: seq<Record>): (r: seq<string>)
    ensures |r| == |labs|
    ensures forall i :: 0 <= i < |labs| ==> r[i] == ElementText(Get(labs[i], "lab_short_form"))
  {
    seq(|labs|, i requires 0 <= i < |labs| => ElementText(Get(labs[i], "lab_short_form")))
  }

  /** `getLabNames(labIds)`: "None" for no list or an empty one, else the chosen labs' short forms joined by ", ". */
  function LabNames(labs: seq<Record>, labIds: Value): (r: string)
    requires !JsTruthy(labIds) || labIds.List?
    ensures !JsTruthy(labIds) || labIds.items == [] ==> r == "None"
  {
    if !JsTruthy(labIds) || labIds.items == [] then "None"
    else Join(", ", ShortForms(Chosen(labs, labIds.items)))
  }

  /** The text lists each chosen lab once, in lab order: splitting it on ", " gives the short forms back. */
  lemma LabNamesListChosen(labs: seq<Record>, ids: seq<Value>)
    requires ids != [] && Chosen(labs, ids) != []
    requires forall i :: 0 <= i < |ShortForms(Chosen(labs, ids))| ==> ',' !in ShortForms(Chosen(labs, ids))[i]
    ensures Split(LabNames(labs, List(ids)), ", ") == ShortForms(Chosen(labs, ids))
    ensures forall lab :: lab in Chosen(labs, ids) <==> lab in labs && Get(lab, "id") in ids
  {
    SplitJoinRoundTrip(ShortForms(Chosen(labs, ids)));
  }

  /** Ids of labs that no longer exist are skipped without a trace: a list of only such ids reads as "", not "None". */
  lemma LabNamesUnknownOnly(labs: seq<Record>, ids: seq<Value>)
    requires ids != []
    requires forall i :: 0 <= i < |labs| ==> Get(labs[i], "id") !in ids
    ensures LabNames(labs, List(ids)) == ""
  {
    FilterKeepsNone(lab => Get(lab, "id") in ids, labs);
  }

  /** `getPracticalTypeLabel(type)`: the three known types get their labels, any other value comes back as given. */
  function PracticalTypeLabel(t: Value): (r: Value)
    ensures t == Str("specific_lab") ==> r == Str("Specific Lab")
    ensures t == Str("classroom") ==> r == Str("Classroom")
    ensures t == Str("no_room") ==> r == Str("No Room")
    ensures t !in {Str("specific_lab"), Str("classroom"), Str("no_room")} ==> r == t
  {
    if t == Str("specific_lab") then Str("Specific Lab")
    else if t == Str("classroom") then Str("Classroom")
    else if t == Str("no_room") then Str("No Room")
    else t
  }

  /** A label is never mistaken for a type: labelling twice is labelling once. */
  lemma PracticalTypeLabelTwice(t: Value)
    ensures PracticalTypeLabel(PracticalTypeLabel(t)) == PracticalTypeLabel(t)
  {
  }

  /**
   * The subjects collection after a submit of `form` for `year`: the subject
   * being edited is updated in place, otherwise one stamped record is
   * appended; a store that rejects writes keeps what it had.
   */
  function Submitted(subjects: seq<Record>, editing: Option<string>, year: string, form: Record, id: string, now: string, accepting: bool): seq<Record>
  {
    if !accepting then subjects
    else if editing.Some? then UpdateFirst(subjects, editing.value, SubjectRecord(year, form), now)
    else subjects + [Stamped(SubjectRecord(year, form), id, now)]
  }

  class SubjectsStepView {
    const store: LocalStore
    var year: string
    var subjects: seq<Record>
    var labs: seq<Record>
    var showForm: bool
    /** The id of the subject being edited; `None` while adding. */
    var editingId: Option<string>
    var form: Record

    constructor (store: LocalStore)
      ensures this.store == store && year == "SY" && subjects == [] && labs == []
      ensures !showForm && editingId == None && form == DefaultForm
    {
      this.store := store;
      year := "SY";
      subjects := [];
      labs := [];
      showForm := false;
      editingId := None;
      form := DefaultForm;
    }

    /** `loadSubjects`: the year's subjects, newest first. */
    method LoadSubjects()
      modifies this`subjects
      ensures subjects == Newest(store.SubjectsOfYear(year))
    {
      subjects := Newest(store.SubjectsOfYear(year));
    }

    /** `loadLabs`. */
    method LoadLabs()
      modifies this`labs
      ensures labs == store.GetAll(Labs)
    {
      labs := store.GetAll(Labs);
    }

    /** Choosing another year reloads both lists. */
    method SelectYear(y: string)
      modifies this`year, this`subjects, this`labs
      ensures year == y
      ensures subjects == Newest(store.SubjectsOfYear(y)) && labs == store.GetAll(Labs)
    {
      year := y;
      LoadSubjects();
      LoadLabs();
    }

    /** `handleChange(field, value)`. */
    method HandleChange(field: string, value: Value)
      modifies this`form
      ensures form == old(form)[field := value]
    {
      form := form[field := value];
    }

    /** `toggleLab(labId)`: drops every occurrence of a chosen lab, or appends a new one. */
    method ToggleLab(labId: Value)
      requires Get(form, "required_labs").List?
      modifies this`form
      ensures form == old(form)["required_labs" := List(Toggle(old(form)["required_labs"].items, labId))]
      ensures labId in old(form)["required_labs"].items ==> labId !in form["required_labs"].items
      ensures labId !in old(form)["required_labs"].items ==> form["required_labs"].items == old(form)["required_labs"].items + [labId]
    {
      form := form["required_labs" := List(Toggle(form["required_labs"].items, labId))];
    }

    /**
     * `handleEdit(subject)`. An id that is not a non-empty string edits nothing: store ids are
     * strings, and the source's truthiness test on `editingId` is narrowed to
     * that.
     */
    method HandleEdit(subject: Record)
      modifies this`form, this`editingId, this`showForm
      ensures form == EditForm(subject) && showForm
      ensures editingId == if Get(subject, "id").Str? && Get(subject, "id").s != "" then Some(Get(subject, "id").s) else None
    {
      form := EditForm(subject);
      editingId := if Get(subject, "id").Str? && Get(subject, "id").s != "" then Some(Get(subject, "id").s) else None;
      showForm := true;
    }

    /**
     * `handleSubmit`: updates the subject being edited or inserts a new one
     * (with the fresh `id` and the time `now`), then resets the form and
     * reloads the list.
     */
    method HandleSubmit(id: string, now: string)
      modifies this`form, this`editingId, this`showForm, this`subjects, store
      ensures store.accepting == old(store.accepting)
      ensures store.GetAll(Subjects) ==
        Submitted(old(store.GetAll(Subjects)), old(editingId), old(year), old(form), id, now, store.accepting)
      ensures forall d :: d != Subjects ==> store.GetAll(d) == old(store.GetAll(d))
      ensures form == DefaultForm && editingId == None && !showForm
      ensures subjects == Newest(store.SubjectsOfYear(year))
    {
      Persist(editingId, year, form, id, now);
      LoadSubjects();
      ResetForm();
    }

    /** The store half of a submit: update the subject being edited, else insert `data`. */
    method Persist(editing: Option<string>, year: string, form: Record, id: string, now: string)
      modifies store
      ensures store.accepting == old(store.accepting)
      ensures store.GetAll(Subjects) == Submitted(old(store.GetAll(Subjects)), editing, year, form, id, now, store.accepting)
      ensures forall d :: d != Subjects ==> store.GetAll(d) == old(store.GetAll(d))
    {
      if editing.Some? {
        var _ := store.Update(Subjects, editing.value, SubjectRecord(year, form), now);
      } else {
        var _ := store.Insert(Subjects, SubjectRecord(year, form), id, now);
      }
    }

    /** The form goes back to its defaults and closes; nothing is being edited any more. */
    method ResetForm()
      modifies this`form, this`editingId, this`showForm
      ensures form == DefaultForm && editingId == None && !showForm
    {
      form := DefaultForm;
      editingId := None;
      showForm := false;
    }

    /** `handleDelete(id)`, once the user has `confirmed` the dialog. */
    method HandleDelete(id: string, confirmed: bool)
      modifies this`subjects, store
      ensures store.accepting == old(store.accepting)
      ensures store.GetAll(Subjects) == if confirmed && store.accepting then WithoutId(old(store.GetAll(Subjects)), id) else old(store.GetAll(Subjects))
      ensures forall d :: d != Subjects ==> store.GetAll(d) == old(store.GetAll(d))
      ensures !confirmed ==> subjects == old(subjects)
      ensures confirmed ==> subjects == Newest(store.SubjectsOfYear(year))
    {
      if confirmed {
        var _ := store.Delete(Subjects, id);
        LoadSubjects();
      }
    }
  }
}
