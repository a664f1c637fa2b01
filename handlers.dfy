/**
 * The Flask handlers that edit name-keyed MongoDB collections:
 * Backend/modules/labs_handler.py and Backend/modules/faculty_handler.py
 * (the same add, delete and update code, over the `labs` and the `faculty`
 * collection; only the labs handler has `confirm_labs`), and
 * Backend/modules/workload_handler.py, which replaces a faculty's workload.
 * Each handler answers with an HTTP status; the message texts are left out.
 */
module Handlers {
  import opened Values
  import opened Seqs
  import opened Mongo

  /** 200, 400, 404 and 500. */
  datatype Status = Ok | BadRequest | NotFound | ServerError

  /** The document `add_lab` and `add_faculty` insert. */
  function NamedRecord(name: Value, shortName: Value): Record
  {
    map["name" := name, "short_name" := shortName]
  }

  /** No two documents share a name. */
  predicate DistinctNames(docs: seq<Record>)
  {
    forall i, j :: 0 <= i < j < |docs| ==> PyGet(docs[i], "name") != PyGet(docs[j], "name")
  }

  /** The `$set` document of `confirm_labs`. */
  const Confirmed: Record := map["confirmed" := Bool(true)]

  /** The document `save_faculty_workload` inserts. */
  function WorkloadRecord(facultyId: Value, subjects: Value): Record
  {
    map["faculty_id" := facultyId, "subjects" := subjects]
  }

  /** The workload collection once a faculty's workload is replaced: its old records go, one new record is appended. */
  function Replaced(docs: seq<Record>, facultyId: Value, subjects: Value, id: Value): seq<Record>
  {
    Filter(NotMatching("faculty_id", facultyId), docs) + [WithId(WorkloadRecord(facultyId, subjects), id)]
  }

  /** Inserting a name no document matches keeps the names distinct. */
  lemma NamedInsertKeepsDistinct(docs: seq<Record>, name: Value, shortName: Value, id: Value)
    requires DistinctNames(docs)
    requires forall i :: 0 <= i < |docs| ==> !Matches(docs[i], "name", name)
    ensures DistinctNames(docs + [WithId(NamedRecord(name, shortName), id)])
  {
    var added := WithId(NamedRecord(name, shortName), id);
    var r := docs + [added];
    forall i, j | 0 <= i < j < |r|
      ensures PyGet(r[i], "name") != PyGet(r[j], "name")
    {
      if j == |docs| {
        assert !Matches(docs[i], "name", name);
        assert PyGet(r[j], "name") == name;
      }
    }
  }

  /**
   * `update_one` does not check the new name against the others: renaming
   * lab "B" to "A" leaves two labs named "A".
   */
  lemma UpdateCanDuplicate()
    ensures var docs := [map["_id" := Num(1), "name" := Str("A")], map["_id" := Num(2), "name" := Str("B")]];
      DistinctNames(docs) && !DistinctNames(SetFirst(docs, "name", Str("B"), map["name" := Str("A")]))
  {
    var docs := [map["_id" := Num(1), "name" := Str("A")], map["_id" := Num(2), "name" := Str("B")]];
    assert !Matches(docs[0], "name", Str("B")) && Matches(docs[1], "name", Str("B"));
    FindIndexAt(Matching("name", Str("B")), docs, 1);
    var r := SetFirst(docs, "name", Str("B"), map["name" := Str("A")]);
    assert PyGet(r[0], "name") == Str("A") == PyGet(r[1], "name");
  }

  /**
   * After a workload is replaced, the faculty has exactly one workload
   * record, the new one, and the records of every other faculty are as they
   * were, in the same order.
   */
  lemma ReplacedHoldsOne(docs: seq<Record>, facultyId: Value, subjects: Value, id: Value)
    ensures Filter(Matching("faculty_id", facultyId), Replaced(docs, facultyId, subjects, id)) == [WithId(WorkloadRecord(facultyId, subjects), id)]
    ensures Filter(NotMatching("faculty_id", facultyId), Replaced(docs, facultyId, subjects, id)) == Filter(NotMatching("faculty_id", facultyId), docs)
  {
    var kept := Filter(NotMatching("faculty_id", facultyId), docs);
    var added := WithId(WorkloadRecord(facultyId, subjects), id);
    assert PyGet(added, "faculty_id") == facultyId;
    FilterAppend(Matching("faculty_id", facultyId), kept, [added]);
    FilterKeepsNone(Matching("faculty_id", facultyId), kept);
    assert Filter(Matching("faculty_id", facultyId), [added]) == [added];
    FilterAppend(NotMatching("faculty_id", facultyId), kept, [added]);
    FilterIdempotent(NotMatching("faculty_id", facultyId), docs);
    assert Filter(NotMatching("faculty_id", facultyId), [added]) == [];
  }

  /**
   * `add_lab` / `add_faculty`: a name and a short name are required, and a
   * name some document already matches is refused; otherwise the pair is
   * inserted. Names added only this way stay distinct.
   */
  method AddNamed(coll: Collection, data: Record, id: Value) returns (status: Status)
    modifies coll
    ensures var name, shortName := PyGet(data, "name"), PyGet(data, "short_name");
      status == if !PyTruthy(name) || !PyTruthy(shortName) then BadRequest
        else if old(coll.FindOne("name", name)).Some? then BadRequest
        else Ok
    ensures status == Ok ==> coll.docs == old(coll.docs) + [WithId(NamedRecord(PyGet(data, "name"), PyGet(data, "short_name")), id)]
    ensures status != Ok ==> coll.docs == old(coll.docs)
    ensures DistinctNames(old(coll.docs)) ==> DistinctNames(coll.docs)
  {
    var name := PyGet(data, "name");
    var shortName := PyGet(data, "short_name");
    if !PyTruthy(name) || !PyTruthy(shortName) {
      return BadRequest;
    }
    if coll.FindOne("name", name).Some? {
      return BadRequest;
    }
    if DistinctNames(coll.docs) {
      NamedInsertKeepsDistinct(coll.docs, name, shortName, id);
    }
    coll.InsertOne(NamedRecord(name, shortName), id);
    status := Ok;
  }

  /** `delete_lab` / `delete_faculty`: a name is required; 404 when no document matches, otherwise the first match goes. */
  method DeleteNamed(coll: Collection, data: Record) returns (status: Status)
    modifies coll
    ensures var name := PyGet(data, "name");
      status == if !PyTruthy(name) then BadRequest
        else if old(coll.FindOne("name", name)).None? then NotFound
        else Ok
    ensures status == Ok ==> coll.docs == DropFirst(old(coll.docs), "name", PyGet(data, "name")) && |coll.docs| == |old(coll.docs)| - 1
    ensures status != Ok ==> coll.docs == old(coll.docs)
  {
    var name := PyGet(data, "name");
    if !PyTruthy(name) {
      return BadRequest;
    }
    var deleted := coll.DeleteOne("name", name);
    if deleted == 0 {
      status := NotFound;
    } else {
      DropFirstRemovesOne(old(coll.docs), "name", name);
      status := Ok;
    }
  }

  /**
   * `update_lab` / `update_faculty`: a name and updates are required; updates
   * that are not a document make `$set` fail; 404 when nothing matches;
   * otherwise the fields are set on the first match, with no check that a new
   * name is still unique.
   */
  method UpdateNamed(coll: Collection, data: Record) returns (status: Status)
    modifies coll
    ensures var name, updates := PyGet(data, "name"), PyGet(data, "updates");
      status == if !PyTruthy(name) || !PyTruthy(updates) then BadRequest
        else if !updates.Obj? then ServerError
        else if old(coll.FindOne("name", name)).None? then NotFound
        else Ok
    ensures status == Ok ==> coll.docs == SetFirst(old(coll.docs), "name", PyGet(data, "name"), PyGet(data, "updates").fields)
    ensures status != Ok ==> coll.docs == old(coll.docs)
  {
    var name := PyGet(data, "name");
    var updates := PyGet(data, "updates");
    if !PyTruthy(name) || !PyTruthy(updates) {
      return BadRequest;
    }
    if !updates.Obj? {
      return ServerError;
    }
    var matched := coll.UpdateOne("name", name, updates.fields);
    status := if matched == 0 then NotFound else Ok;
  }

  /**
   * `confirm_labs`: a non-empty list of names is required (a missing one
   * counts as empty, anything but a list makes `$in` fail); every lab named
   * in it gets `confirmed` set to true, every other lab stays as it was, and
   * the answer reports how many labs actually changed.
   */
  method ConfirmLabs(labs: Collection, data: Record) returns (status: Status, modified: nat)
    modifies labs
    ensures var names := PyGet(data, "lab_names");
      status == if !PyTruthy(names) then BadRequest else if !names.List? then ServerError else Ok
    ensures status != Ok ==> labs.docs == old(labs.docs) && modified == 0
    ensures status == Ok ==>
      var names := PyGet(data, "lab_names").items;
      labs.docs == SetWhereAny(old(labs.docs), "name", names, Confirmed) &&
      modified == |Filter(Changes("name", names, Confirmed), old(labs.docs))| &&
      modified <= |Filter(MatchingAny("name", names), old(labs.docs))|
  {
    var names := PyGet(data, "lab_names");
    if !PyTruthy(names) {
      return BadRequest, 0;
    }
    if !names.List? {
      return ServerError, 0;
    }
    var matched;
    matched, modified := labs.UpdateManyIn("name", names.items, Confirmed);
    ModifiedAtMostMatched(old(labs.docs), "name", names.items, Confirmed);
    status := Ok;
  }

  /**
   * `save_faculty_workload`: a faculty name and subjects are required, and
   * the faculty must exist; its old workload records are deleted and one
   * record with the new subjects is inserted under the faculty's `_id`.
   */
  method SaveFacultyWorkload(faculty: Collection, workload: Collection, data: Record, id: Value) returns (status: Status)
    requires faculty != workload
    modifies workload
    ensures var name, subjects := PyGet(data, "faculty_name"), PyGet(data, "subjects");
      status == if !PyTruthy(name) || !PyTruthy(subjects) then BadRequest
        else if faculty.FindOne("name", name).None? then NotFound
        else Ok
    ensures status != Ok ==> workload.docs == old(workload.docs)
    ensures status == Ok ==>
      var facultyId := PyGet(faculty.FindOne("name", PyGet(data, "faculty_name")).value, "_id");
      workload.docs == Replaced(old(workload.docs), facultyId, PyGet(data, "subjects"), id)
  {
    var name := PyGet(data, "faculty_name");
    var subjects := PyGet(data, "subjects");
    if !PyTruthy(name) || !PyTruthy(subjects) {
      return BadRequest;
    }
    var found := faculty.FindOne("name", name);
    if found.None? {
      return NotFound;
    }
    var facultyId := PyGet(found.value, "_id");
    var _ := workload.DeleteMany("faculty_id", facultyId);
    workload.InsertOne(WorkloadRecord(facultyId, subjects), id);
    status := Ok;
  }
}
