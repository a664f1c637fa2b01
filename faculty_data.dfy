/**
 * The faculty page (Frontend/src/components/FacultyData.jsx): the list of
 * faculty, newest first, and a form whose years taught are a checkbox list
 * while editing and one ", "-separated text once stored.
 */
module FacultyData {
  import opened Values
  import opened Seqs
  import opened Text
  import opened Storage
  import opened Ui

  /** The form the page starts from and returns to after every submit. */
  const DefaultForm: Record := map["title" := Str("Prof"), "full_name" := Str(""), "teaches_year" := List([])]

  /** The text `join` writes for each year. */
  function YearTexts(years: seq<Value>): (r: seq<string>)
    ensures |r| == |years|
    ensures forall i :: 0 <= i < |years| ==> r[i] == ElementText(years[i])
  {
    seq(|years|, i requires 0 <= i < |years| => ElementText(years[i]))
  }

  /** The pieces of a split, each as a string value. */
  function StrValues(xs: seq<string>): (r: seq<Value>)
    ensures |r| == |xs|
    ensures forall i :: 0 <= i < |xs| ==> r[i] == Str(xs[i])
  {
    seq(|xs|, i requires 0 <= i < |xs| => Str(xs[i]))
  }

  /** The record a submit stores: the form with its years joined into one text. */
  function FacultyRecord(form: Record): Record
    requires Get(form, "teaches_year").List?
  {
    form["teaches_year" := Str(Join(", ", YearTexts(form["teaches_year"].items)))]
  }

  /** The form `handleEdit` fills from a stored faculty: its stored years split on ", ". */
  function EditForm(faculty: Record): (f: Record)
    requires Get(faculty, "teaches_year").Str?
    ensures f.Keys == DefaultForm.Keys
  {
    map[
      "title" := Get(faculty, "title"),
      "full_name" := Get(faculty, "full_name"),
      "teaches_year" := List(StrValues(Split(faculty["teaches_year"].s, ", ")))]
  }

  /** The years are texts, none holding a comma. */
  predicate PlainYears(years: seq<Value>)
  {
    forall i :: 0 <= i < |years| ==> years[i].Str? && ',' !in years[i].s
  }

  /** Joining plain years and splitting the text again gives the years back, as long as there is one. */
  lemma YearsSplitJoin(years: seq<Value>)
    requires years != [] && PlainYears(years)
    ensures StrValues(Split(Join(", ", YearTexts(years)), ", ")) == years
  {
    var texts := YearTexts(years);
    forall i | 0 <= i < |years|
      ensures texts[i] == years[i].s
    {
      assert ElementText(years[i]) == ToText(years[i]);
    }
    SplitJoinRoundTrip(texts);
  }

  /**
   * Saving a form with at least one plain year and opening the stored
   * faculty for editing gives the same form back.
   */
  lemma EditAfterSubmit(form: Record, id: string, now: string)
    requires form.Keys == DefaultForm.Keys
    requires form["teaches_year"].List? && form["teaches_year"].items != [] && PlainYears(form["teaches_year"].items)
    ensures EditForm(Stamped(FacultyRecord(form), id, now)) == form
  {
    var record := FacultyRecord(form);
    var saved := Stamped(record, id, now);
    YearsSplitJoin(form["teaches_year"].items);
    assert "title" in record && "full_name" in record && "teaches_year" in record;
    assert saved["title"] == record["title"] == form["title"];
    assert saved["full_name"] == record["full_name"] == form["full_name"];
    assert saved["teaches_year"] == record["teaches_year"];
    EditOfFields(saved, form);
  }

  /** A faculty whose three fields are those of the form, the years as their joined text, opens as that form. */
  lemma EditOfFields(faculty: Record, form: Record)
    requires form.Keys == DefaultForm.Keys
    requires Get(faculty, "title") == form["title"] && Get(faculty, "full_name") == form["full_name"]
    requires Get(faculty, "teaches_year").Str?
    requires List(StrValues(Split(faculty["teaches_year"].s, ", "))) == form["teaches_year"]
    ensures EditForm(faculty) == form
  {
  }

  /** A faculty saved with no year ticked comes back with one year, the empty text. */
  lemma EditAfterSubmitNoYears(form: Record, id: string, now: string)
    requires Get(form, "teaches_year") == List([])
    ensures EditForm(Stamped(FacultyRecord(form), id, now))["teaches_year"] == List([Str("")])
  {
    var saved := Stamped(FacultyRecord(form), id, now);
    assert YearTexts([]) == [];
    SplitJoinEmpty();
    assert saved["teaches_year"] == Str(Join(", ", []));
  }

  /**
   * The faculty collection after a submit of `form`: the faculty being
   * edited is updated in place, otherwise one stamped record is appended; a
   * store that rejects writes keeps what it had.
   */
  function Submitted(all: seq<Record>, editing: Option<string>, form: Record, id: string, now: string, accepting: bool): seq<Record>
    requires Get(form, "teaches_year").List?
  {
    if !accepting then all
    else if editing.Some? then UpdateFirst(all, editing.value, FacultyRecord(form), now)
    else all + [Stamped(FacultyRecord(form), id, now)]
  }

  /** A new faculty is one more record; an edit keeps the count. */
  lemma SubmittedCount(all: seq<Record>, editing: Option<string>, form: Record, id: string, now: string)
    requires Get(form, "teaches_year").List?
    ensures |Submitted(all, editing, form, id, now, true)| == if editing.None? then |all| + 1 else |all|
  {
  }

  class FacultyDataView {
    const store: LocalStore
    var faculties: seq<Record>
    /** The id of the faculty being edited; `None` while adding. */
    var editingId: Option<string>
    var showForm: bool
    var form: Record

    constructor (store: LocalStore)
      ensures this.store == store && faculties == [] && editingId == None && !showForm && form == DefaultForm
    {
      this.store := store;
      faculties := [];
      editingId := None;
      showForm := false;
      form := DefaultForm;
    }

    /** `loadFaculties`: every faculty, newest first. */
    method LoadFaculties()
      modifies this`faculties
      ensures faculties == Newest(store.GetAll(Faculties))
    {
      faculties := Newest(store.GetAll(Faculties));
    }

    /** `handleSubmit`: store the form (update when editing, insert otherwise), reset the form, reload. */
    method HandleSubmit(id: string, now: string)
      requires Get(form, "teaches_year").List?
      modifies this`form, this`editingId, this`showForm, this`faculties, store
      ensures store.accepting == old(store.accepting)
      ensures store.GetAll(Faculties) ==
        Submitted(old(store.GetAll(Faculties)), old(editingId), old(form), id, now, store.accepting)
      ensures forall d :: d != Faculties ==> store.GetAll(d) == old(store.GetAll(d))
      ensures form == DefaultForm && editingId == None && !showForm
      ensures faculties == Newest(store.GetAll(Faculties))
    {
      Persist(editingId, form, id, now);
      LoadFaculties();
      ResetForm();
    }

    /** The store half of a submit. */
    method Persist(editing: Option<string>, form: Record, id: string, now: string)
      requires Get(form, "teaches_year").List?
      modifies store
      ensures store.accepting == old(store.accepting)
      ensures store.GetAll(Faculties) == Submitted(old(store.GetAll(Faculties)), editing, form, id, now, store.accepting)
      ensures forall d :: d != Faculties ==> store.GetAll(d) == old(store.GetAll(d))
    {
      if editing.Some? {
        var _ := store.Update(Faculties, editing.value, FacultyRecord(form), now);
      } else {
        var _ := store.Insert(Faculties, FacultyRecord(form), id, now);
      }
    }

    /** The form goes back to its defaults and closes. */
    method ResetForm()
      modifies this`form, this`editingId, this`showForm
      ensures form == DefaultForm && editingId == None && !showForm
    {
      form := DefaultForm;
      editingId := None;
      showForm := false;
    }

    /**
     * `handleEdit(faculty)`: the stored text of years is split back into a list. An id that is not a non-empty string edits nothing: store ids are
     * strings, and the source's truthiness test on `editingId` is narrowed to
     * that.
     */
    method HandleEdit(faculty: Record)
      requires Get(faculty, "teaches_year").Str?
      modifies this`form, this`editingId, this`showForm
      ensures form == EditForm(faculty) && showForm
      ensures editingId == if Get(faculty, "id").Str? && Get(faculty, "id").s != "" then Some(Get(faculty, "id").s) else None
    {
      form := EditForm(faculty);
      editingId := if Get(faculty, "id").Str? && Get(faculty, "id").s != "" then Some(Get(faculty, "id").s) else None;
      showForm := true;
    }

    /** `handleDelete(id)`, once the user has `confirmed` the dialog. */
    method HandleDelete(id: string, confirmed: bool)
      modifies this`faculties, store
      ensures store.accepting == old(store.accepting)
      ensures store.GetAll(Faculties) == if confirmed && store.accepting then WithoutId(old(store.GetAll(Faculties)), id) else old(store.GetAll(Faculties))
      ensures forall d :: d != Faculties ==> store.GetAll(d) == old(store.GetAll(d))
      ensures !confirmed ==> faculties == old(faculties)
      ensures confirmed ==> faculties == Newest(store.GetAll(Faculties))
    {
      if confirmed {
        var _ := store.Delete(Faculties, id);
        LoadFaculties();
      }
    }

    /** `toggleYear(year)`: a ticked year is removed wherever it occurs, an unticked one is added at the end. */
    method ToggleYear(year: Value)
      requires Get(form, "teaches_year").List?
      modifies this`form
      ensures form == old(form)["teaches_year" := List(Toggle(old(form)["teaches_year"].items, year))]
      ensures year in old(form)["teaches_year"].items ==> year !in form["teaches_year"].items
      ensures year !in old(form)["teaches_year"].items ==> form["teaches_year"].items == old(form)["teaches_year"].items + [year]
    {
      form := form["teaches_year" := List(Toggle(form["teaches_year"].items, year))];
    }
  }
}
