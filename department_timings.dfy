/**
 * Step 1 of the timetable wizard
 * (Frontend/src/components/generate-steps/DepartmentTimings.jsx): the lecture
 * length, the working day and its breaks, kept as one form and saved as the
 * department's single timings record.
 */
module TimingsStep {
  import opened Values
  import opened Seqs
  import opened Storage

  /** The lunch break the form starts with. */
  const Lunch: Value := Obj(map["name" := Str("Lunch"), "start_time" := Str("12:15"), "duration" := Num(65)])

  /** The break `addBreak` appends. */
  const BlankBreak: Value := Obj(map["name" := Str(""), "start_time" := Str(""), "duration" := Num(0)])

  /** The form before anything is loaded: 60-minute lectures from 09:15 to 17:20 with one lunch break. */
  const DefaultForm: Record := map[
    "lecture_duration" := Num(60),
    "day_start_time" := Str("09:15"),
    "day_end_time" := Str("17:20"),
    "breaks" := List([Lunch])]

  /** The four fields the form holds. */
  const FormFields: set<string> := {"lecture_duration", "day_start_time", "day_end_time", "breaks"}

  /** `timings.breaks || []`. */
  function BreaksOf(timings: Record): (v: Value)
    ensures JsTruthy(Get(timings, "breaks")) ==> v == timings["breaks"]
    ensures !JsTruthy(Get(timings, "breaks")) ==> v == List([])
  {
    if JsTruthy(Get(timings, "breaks")) then timings["breaks"] else List([])
  }

  /** `loadTimings`: the stored record's four fields replace the form; with nothing stored the form stays. */
  function LoadTimings(form: Record, stored: Option<Record>): (r: Record)
    ensures stored.None? ==> r == form
    ensures stored.Some? ==> r.Keys == FormFields
    ensures stored.Some? ==> forall k :: k in FormFields && k != "breaks" ==> r[k] == Get(stored.value, k)
    ensures stored.Some? ==> r["breaks"] == BreaksOf(stored.value)
  {
    match stored
    case None => form
    case Some(t) =>
      map[
        "lecture_duration" := Get(t, "lecture_duration"),
        "day_start_time" := Get(t, "day_start_time"),
        "day_end_time" := Get(t, "day_end_time"),
        "breaks" := BreaksOf(t)]
  }

  /** `handleChange(field, value)`. */
  function HandleChange(form: Record, field: string, value: Value): (r: Record)
    ensures r.Keys == form.Keys + {field} && r[field] == value
    ensures forall k :: k in form && k != field ==> r[k] == form[k]
  {
    form[field := value]
  }

  /** The form holds a list of breaks. */
  predicate HasBreaks(form: Record)
  {
    Get(form, "breaks").List?
  }

  function Breaks(form: Record): seq<Value>
    requires HasBreaks(form)
  {
    form["breaks"].items
  }

  /** `addBreak`: a blank break goes at the end. */
  function AddBreak(form: Record): (r: Record)
    requires HasBreaks(form)
    ensures HasBreaks(r) && Breaks(r) == Breaks(form) + [BlankBreak]
    ensures forall k :: k in form && k != "breaks" ==> k in r && r[k] == form[k]
  {
    form["breaks" := List(Breaks(form) + [BlankBreak])]
  }

  /** `removeBreak(index)`: the break at `index` goes, if there is one. */
  function RemoveBreak(form: Record, index: int): (r: Record)
    requires HasBreaks(form)
    ensures HasBreaks(r)
    ensures 0 <= index < |Breaks(form)| ==> Breaks(r) == Breaks(form)[..index] + Breaks(form)[index + 1..]
    ensures !(0 <= index < |Breaks(form)|) ==> Breaks(r) == Breaks(form)
  {
    form["breaks" := List(DropIndex(Breaks(form), index))]
  }

  /** The fields `{...v}` copies from a break: an object's own fields, nothing from null, a number or a boolean. */
  function Spread(v: Value): map<string, Value>
  {
    if v.Obj? then v.fields else map[]
  }

  /** `{ ...brk, [field]: value }`. */
  function WithField(brk: Value, field: string, value: Value): (r: Value)
    ensures r.Obj? && field in r.fields && r.fields[field] == value
    ensures brk.Obj? ==> r.fields == brk.fields[field := value]
  {
    Obj(Spread(brk)[field := value])
  }

  /** `updateBreak(index, field, value)`: only the break at `index` changes. */
  function UpdateBreak(form: Record, index: int, field: string, value: Value): (r: Record)
    requires HasBreaks(form)
    ensures HasBreaks(r) && |Breaks(r)| == |Breaks(form)|
    ensures forall i :: 0 <= i < |Breaks(form)| && i != index ==> Breaks(r)[i] == Breaks(form)[i]
    ensures 0 <= index < |Breaks(form)| ==> Breaks(r)[index] == WithField(Breaks(form)[index], field, value)
  {
    var bs := Breaks(form);
    form["breaks" := List(seq(|bs|, i requires 0 <= i < |bs| => if i == index then WithField(bs[i], field, value) else bs[i]))]
  }

  /** Adding a break and removing the last one gives the form back. */
  lemma RemoveAddedBreak(form: Record)
    requires HasBreaks(form)
    ensures RemoveBreak(AddBreak(form), |Breaks(form)|) == form
  {
    var added := AddBreak(form);
    assert Breaks(added)[..|Breaks(form)|] == Breaks(form);
    assert Breaks(added)[|Breaks(form)| + 1..] == [];
    assert Breaks(form) + [] == Breaks(form);
  }

  /** Setting a field of a break to the value it already has changes nothing. */
  lemma UpdateBreakSameValue(form: Record, index: int, field: string)
    requires HasBreaks(form) && 0 <= index < |Breaks(form)|
    requires Breaks(form)[index].Obj? && field in Breaks(form)[index].fields
    ensures UpdateBreak(form, index, field, Breaks(form)[index].fields[field]) == form
  {
    var bs := Breaks(form);
    var r := UpdateBreak(form, index, field, bs[index].fields[field]);
    assert bs[index].fields[field := bs[index].fields[field]] == bs[index].fields;
    assert Breaks(r) == bs;
  }

  /**
   * Saving the form and loading the stored timings again gives the form back,
   * whatever was stored before: the upsert lays every field of the form over
   * the stored record.
   */
  lemma LoadAfterSave(form: Record, stored: seq<Record>, id: string, now: string, other: Record)
    requires form.Keys == FormFields
    requires JsTruthy(form["breaks"]) || form["breaks"] == List([])
    ensures LoadTimings(other, Some(UpsertFirst(stored, form, id, now)[0])) == form
  {
    var t := UpsertFirst(stored, form, id, now)[0];
    if stored == [] {
      assert t == Stamped(form, id, now);
    } else {
      assert t == Touched(stored[0], form, now);
    }
    LoadCarriesFields(t, form, other);
  }

  /** Loading a record that holds every field of the form, unchanged, gives the form. */
  lemma LoadCarriesFields(t: Record, form: Record, other: Record)
    requires form.Keys == FormFields
    requires JsTruthy(form["breaks"]) || form["breaks"] == List([])
    requires forall k :: k in FormFields ==> k in t && t[k] == form[k]
    ensures LoadTimings(other, Some(t)) == form
  {
    assert "breaks" in FormFields;
  }

  /** The step's state: the timings form over the department's store. */
  class TimingsView {
    const store: LocalStore
    var form: Record

    constructor (store: LocalStore)
      ensures this.store == store && form == DefaultForm
    {
      this.store := store;
      form := DefaultForm;
    }

    /** `loadTimings`, run when the step opens. */
    method Load()
      modifies this`form
      ensures form == LoadTimings(old(form), store.Timings())
    {
      form := LoadTimings(form, store.Timings());
    }

    method Change(field: string, value: Value)
      modifies this`form
      ensures form == HandleChange(old(form), field, value)
    {
      form := HandleChange(form, field, value);
    }

    method Add()
      requires HasBreaks(form)
      modifies this`form
      ensures form == AddBreak(old(form))
    {
      form := AddBreak(form);
    }

    method Remove(index: int)
      requires HasBreaks(form)
      modifies this`form
      ensures form == RemoveBreak(old(form), index)
    {
      form := RemoveBreak(form, index);
    }

    method Update(index: int, field: string, value: Value)
      requires HasBreaks(form)
      modifies this`form
      ensures form == UpdateBreak(old(form), index, field, value)
    {
      form := UpdateBreak(form, index, field, value);
    }

    /** `handleSave`: the form is upserted as the single timings record and handed to the wizard as its `timings`. */
    method Save(id: string, now: string) returns (key: string, payload: Record)
      modifies store
      ensures key == "timings" && payload == form
      ensures store.accepting == old(store.accepting)
      ensures store.GetAll(Storage.DepartmentTimings) ==
        if store.accepting then UpsertFirst(old(store.GetAll(Storage.DepartmentTimings)), form, id, now) else old(store.GetAll(Storage.DepartmentTimings))
      ensures forall d :: d != Storage.DepartmentTimings ==> store.GetAll(d) == old(store.GetAll(d))
    {
      var _ := store.UpsertTimings(form, id, now);
      key, payload := "timings", form;
    }
  }
}
