/**
 * The browser-side record store (src/lib/storage.js): seven collections, each
 * kept as one JSON array under a fixed localStorage key, read in full and
 * written back in full by every operation.
 *
 * localStorage is the map `slots` from collection to the text stored under
 * that collection's key (the seven keys are distinct, so this is the same
 * map read through `StorageKey`); the text is either a parsed array of
 * records or something that does not parse. Whether the
 * medium accepts writes (it may be full) is the flag `accepting`; a rejected
 * write is logged by the source and changes nothing. Record ids and ISO
 * timestamps are produced by the clock and a random generator, so they are
 * parameters here.
 */
module Storage {
  import opened Values
  import opened Seqs

  datatype Collection =
    | Faculties
    | Labs
    | ClassStructures
    | Subjects
    | DepartmentTimings
    | FacultyAssignments
    | Timetables

  /** The localStorage key of each collection. */
  function StorageKey(c: Collection): string
  {
    match c
    case Faculties => "schedulo_faculties"
    case Labs => "schedulo_labs"
    case ClassStructures => "schedulo_class_structure"
    case Subjects => "schedulo_subjects"
    case DepartmentTimings => "schedulo_department_timings"
    case FacultyAssignments => "schedulo_faculty_assignments"
    case Timetables => "schedulo_timetables"
  }

  /** No two collections share a key, so writing one never touches another. */
  lemma StorageKeysDistinct(c: Collection, d: Collection)
    requires c != d
    ensures StorageKey(c) != StorageKey(d)
  {
    assert |StorageKey(c)| != |StorageKey(d)|;
  }

  /** The text stored under a key: a JSON array of records, or text that is empty or does not parse. */
  datatype Slot = Json(records: seq<Record>) | Corrupt

  /** `getFromStorage`: a missing key or unreadable text reads as the empty collection, never as a failure. */
  function Read(slots: map<Collection, Slot>, key: Collection): (rs: seq<Record>)
    ensures key !in slots ==> rs == []
    ensures key in slots && slots[key].Corrupt? ==> rs == []
    ensures key in slots && slots[key].Json? ==> rs == slots[key].records
  {
    if key in slots && slots[key].Json? then slots[key].records else []
  }

  /** The record `insert` stores: every given field, then a fresh id and both timestamps. */
  function Stamped(rec: Record, id: string, now: string): (r: Record)
    ensures r.Keys == rec.Keys + {"id", "created_at", "updated_at"}
    ensures forall k :: k in rec && k != "id" && k != "created_at" && k != "updated_at" ==> r[k] == rec[k]
    ensures r["id"] == Str(id) && r["created_at"] == Str(now) && r["updated_at"] == Str(now)
  {
    Merge(rec, map["id" := Str(id), "created_at" := Str(now), "updated_at" := Str(now)])
  }

  /** `{...rec, ...updates, updated_at: now}`: the fields of `updates` win and `updated_at` is refreshed. */
  function Touched(rec: Record, updates: Record, now: string): (r: Record)
    ensures r.Keys == rec.Keys + updates.Keys + {"updated_at"}
    ensures forall k :: k in updates && k != "updated_at" ==> r[k] == updates[k]
    ensures forall k :: k in rec && k !in updates && k != "updated_at" ==> r[k] == rec[k]
    ensures r["updated_at"] == Str(now)
  {
    Merge(Merge(rec, updates), map["updated_at" := Str(now)])
  }

  function HasId(id: string): Record -> bool
  {
    r => Get(r, "id") == Str(id)
  }

  function HasYear(year: string): Record -> bool
  {
    r => Get(r, "year") == Str(year)
  }

  /** The collection after `update(id, updates)`: only the first record with that id changes. */
  function UpdateFirst(s: seq<Record>, id: string, updates: Record, now: string): (r: seq<Record>)
    ensures |r| == |s|
    ensures (forall j :: 0 <= j < |s| ==> Get(s[j], "id") != Str(id)) ==> r == s
    ensures forall j :: 0 <= j < |s| && j != FindIndex(HasId(id), s) ==> r[j] == s[j]
    ensures 0 <= FindIndex(HasId(id), s) ==> r[FindIndex(HasId(id), s)] == Touched(s[FindIndex(HasId(id), s)], updates, now)
  {
    var i := FindIndex(HasId(id), s);
    if i == -1 then s else s[i := Touched(s[i], updates, now)]
  }

  /** The collection after `delete(id)`: every record with that id is gone, the rest keep their order. */
  function WithoutId(s: seq<Record>, id: string): (r: seq<Record>)
    ensures forall j :: 0 <= j < |r| ==> Get(r[j], "id") != Str(id)
    ensures forall x :: x in s && Get(x, "id") != Str(id) ==> x in r
    ensures forall x :: x in s ==> multiset(r)[x] == if Get(x, "id") != Str(id) then multiset(s)[x] else 0
    ensures IsSubsequence(r, s)
  {
    FilterIsSubsequence(x => Get(x, "id") != Str(id), s);
    Filter(x => Get(x, "id") != Str(id), s)
  }

  /** Deleting the same id twice leaves what deleting it once left. */
  lemma DeleteIdempotent(s: seq<Record>, id: string)
    ensures WithoutId(WithoutId(s, id), id) == WithoutId(s, id)
  {
    FilterIdempotent(x => Get(x, "id") != Str(id), s);
  }

  /** `structures.find(s => s.year === year)`. */
  function FindYear(s: seq<Record>, year: string): (r: Option<Record>)
    ensures r.None? <==> forall j :: 0 <= j < |s| ==> Get(s[j], "year") != Str(year)
    ensures r.Some? ==> r.value == s[FindIndex(HasYear(year), s)]
  {
    var i := FindIndex(HasYear(year), s);
    if i == -1 then None else Some(s[i])
  }

  /** The number of records of a year. */
  function CountYear(s: seq<Record>, year: string): nat
  {
    |Filter(HasYear(year), s)|
  }

  /** The class-structure collection after `upsert(year, data)`. */
  function UpsertYear(s: seq<Record>, year: string, data: Record, id: string, now: string): (r: seq<Record>)
    ensures FindIndex(HasYear(year), s) == -1 ==> r == s + [Stamped(Merge(data, map["year" := Str(year)]), id, now)]
    ensures 0 <= FindIndex(HasYear(year), s) ==>
      r == s[FindIndex(HasYear(year), s) := Touched(s[FindIndex(HasYear(year), s)], data, now)]
  {
    var i := FindIndex(HasYear(year), s);
    if i == -1 then s + [Stamped(Merge(data, map["year" := Str(year)]), id, now)]
    else s[i := Touched(s[i], data, now)]
  }

  /**
   * Upserting a year whose data carries no `year` field adds a record for that
   * year exactly when there was none, and leaves the count of every other
   * year alone.
   */
  lemma UpsertYearCounts(s: seq<Record>, year: string, data: Record, id: string, now: string, other: string)
    requires "year" !in data
    ensures CountYear(UpsertYear(s, year, data, id, now), year) == if CountYear(s, year) == 0 then 1 else CountYear(s, year)
    ensures other != year ==> CountYear(UpsertYear(s, year, data, id, now), other) == CountYear(s, other)
  {
    var i := FindIndex(HasYear(year), s);
    var r := UpsertYear(s, year, data, id, now);
    if i == -1 {
      var added := Stamped(Merge(data, map["year" := Str(year)]), id, now);
      assert added["year"] == Str(year);
      FilterAppend(HasYear(year), s, [added]);
      FilterAppend(HasYear(other), s, [added]);
      FilterKeepsNone(HasYear(year), s);
    } else {
      var t := Touched(s[i], data, now);
      assert Get(t, "year") == Get(s[i], "year");
      FilterLengthUpdate(HasYear(year), s, i, t);
      FilterLengthUpdate(HasYear(other), s, i, t);
      assert s[i] in s;
    }
  }

  /** So upserting through the UI, whose data has no `year` field, never creates a second record for a year. */
  lemma UpsertYearKeepsOnePerYear(s: seq<Record>, year: string, data: Record, id: string, now: string)
    requires "year" !in data
    requires forall y :: CountYear(s, y) <= 1
    ensures forall y :: CountYear(UpsertYear(s, year, data, id, now), y) <= 1
  {
    forall y ensures CountYear(UpsertYear(s, year, data, id, now), y) <= 1 {
      UpsertYearCounts(s, year, data, id, now, y);
    }
  }

  /** What `upsert` returns is the record of that year, carrying every field of `data` but the id and the timestamps. */
  lemma UpsertYearResult(s: seq<Record>, year: string, data: Record, id: string, now: string)
    requires "year" !in data
    ensures FindYear(UpsertYear(s, year, data, id, now), year).Some?
    ensures var r := FindYear(UpsertYear(s, year, data, id, now), year).value;
      Get(r, "year") == Str(year) && forall k :: k in data && k != "id" && k != "created_at" && k != "updated_at" ==> k in r && r[k] == data[k]
  {
    var i := FindIndex(HasYear(year), s);
    var r := UpsertYear(s, year, data, id, now);
    if i == -1 {
      var added := Stamped(Merge(data, map["year" := Str(year)]), id, now);
      assert r == s + [added];
      assert HasYear(year)(added);
      assert forall j :: 0 <= j < |s| ==> r[j] == s[j] && !HasYear(year)(r[j]);
      FindIndexAt(HasYear(year), r, |s|);
    } else {
      var t := Touched(s[i], data, now);
      assert r == s[i := t];
      assert Get(t, "year") == Get(s[i], "year");
      assert HasYear(year)(t);
      assert forall j :: 0 <= j < i ==> r[j] == s[j] && !HasYear(year)(r[j]);
      FindIndexAt(HasYear(year), r, i);
    }
  }

  /** Upserting one year changes nothing `find` reports for any other year. */
  lemma UpsertYearOtherYear(s: seq<Record>, year: string, data: Record, id: string, now: string, other: string)
    requires "year" !in data && other != year
    ensures FindYear(UpsertYear(s, year, data, id, now), other) == FindYear(s, other)
  {
    var i := FindIndex(HasYear(year), s);
    if i == -1 {
      var added := Stamped(Merge(data, map["year" := Str(year)]), id, now);
      assert Get(added, "year") == Str(year);
      FindYearAppend(s, added, other);
    } else {
      var t := Touched(s[i], data, now);
      assert Get(t, "year") == Get(s[i], "year");
      FindYearReplace(s, i, t, other);
    }
  }

  /** Appending a record of another year leaves `find` as it was. */
  lemma FindYearAppend(s: seq<Record>, added: Record, other: string)
    requires Get(added, "year") != Str(other)
    ensures FindYear(s + [added], other) == FindYear(s, other)
  {
    var k := FindIndex(HasYear(other), s);
    var r := s + [added];
    if k == -1 {
      assert forall j :: 0 <= j < |r| ==> !HasYear(other)(r[j]);
    } else {
      FindIndexAt(HasYear(other), r, k);
    }
  }

  /** Replacing a record of another year by one of another year leaves `find` as it was. */
  lemma FindYearReplace(s: seq<Record>, i: int, t: Record, other: string)
    requires 0 <= i < |s| && Get(s[i], "year") != Str(other) && Get(t, "year") != Str(other)
    ensures FindYear(s[i := t], other) == FindYear(s, other)
  {
    var k := FindIndex(HasYear(other), s);
    var r := s[i := t];
    if k == -1 {
      assert forall j :: 0 <= j < |r| ==> !HasYear(other)(r[j]);
    } else {
      FindIndexAt(HasYear(other), r, k);
    }
  }

  /** The department-timings collection after `upsert(data)`: always index 0, never a second record. */
  function UpsertFirst(s: seq<Record>, data: Record, id: string, now: string): (r: seq<Record>)
    ensures |r| == if s == [] then 1 else |s|
    ensures s == [] ==> r[0] == Stamped(data, id, now)
    ensures s != [] ==> r[0] == Touched(s[0], data, now) && r[1..] == s[1..]
  {
    if s == [] then [Stamped(data, id, now)] else s[0 := Touched(s[0], data, now)]
  }

  /** Two upserts in a row leave one visible record: the second call's fields merged over the first's. */
  lemma UpsertFirstTwice(s: seq<Record>, d1: Record, d2: Record, id1: string, id2: string, t1: string, t2: string)
    ensures var r := UpsertFirst(UpsertFirst(s, d1, id1, t1), d2, id2, t2);
      && |r| == (if s == [] then 1 else |s|)
      && (forall k :: k in d2 && k != "updated_at" ==> r[0][k] == d2[k])
      && (forall k :: k in d1 && k !in d2 && k != "updated_at" && k != "id" && k != "created_at" ==> r[0][k] == d1[k])
      && r[0]["updated_at"] == Str(t2)
  {
  }

  /** `find` by id for the read-time join: the first match as an object, or `undefined` for a dangling id. */
  function Lookup(rs: seq<Record>, id: Value): (v: Value)
    ensures v == Undefined <==> forall j :: 0 <= j < |rs| ==> Get(rs[j], "id") != id
    ensures v != Undefined ==> v.Obj? && v.fields in rs && Get(v.fields, "id") == id
    ensures v != Undefined ==> v.fields == rs[FindIndex(r => Get(r, "id") == id, rs)]
  {
    var i := FindIndex(r => Get(r, "id") == id, rs);
    if i == -1 then Undefined else Obj(rs[i])
  }

  /** Attaches the faculty and subject each assignment refers to, under `faculties` and `subjects`. */
  function JoinAssignments(assignments: seq<Record>, faculties: seq<Record>, subjects: seq<Record>): (r: seq<Record>)
    ensures |r| == |assignments|
    ensures forall k :: 0 <= k < |r| ==>
      && r[k].Keys == assignments[k].Keys + {"faculties", "subjects"}
      && r[k]["faculties"] == Lookup(faculties, Get(assignments[k], "faculty_id"))
      && r[k]["subjects"] == Lookup(subjects, Get(assignments[k], "subject_id"))
      && forall f :: f in assignments[k] && f != "faculties" && f != "subjects" ==> r[k][f] == assignments[k][f]
  {
    seq(|assignments|, k requires 0 <= k < |assignments| =>
      Merge(assignments[k], map[
        "faculties" := Lookup(faculties, Get(assignments[k], "faculty_id")),
        "subjects" := Lookup(subjects, Get(assignments[k], "subject_id"))]))
  }

  /** The join leaves every other field of an assignment as it was. */
  lemma JoinKeepsField(assignments: seq<Record>, faculties: seq<Record>, subjects: seq<Record>, f: string)
    requires f != "faculties" && f != "subjects"
    ensures forall k :: 0 <= k < |assignments| ==> Get(JoinAssignments(assignments, faculties, subjects)[k], f) == Get(assignments[k], f)
  {
  }

  function IsOfYearAndType(year: string, kind: string): Record -> bool
  {
    a => Get(a, "year") == Str(year) && Get(a, "assignment_type") == Str(kind)
  }

  /** The collections that offer `insert`. */
  predicate HasInsert(c: Collection)
  {
    c in {Faculties, Labs, Subjects, FacultyAssignments, Timetables}
  }

  /** The collections that offer `update` and `delete`. */
  predicate HasUpdateAndDelete(c: Collection)
  {
    c in {Faculties, Labs, Subjects, FacultyAssignments}
  }

  class LocalStore {
    var slots: map<Collection, Slot>
    var accepting: bool

    constructor (initial: map<Collection, Slot>, writable: bool)
      ensures slots == initial && accepting == writable
    {
      slots := initial;
      accepting := writable;
    }

    /** `getAll()`. */
    function GetAll(c: Collection): seq<Record>
      reads this
    {
      Read(slots, c)
    }

    /** localStorage after `saveToStorage(key of c, data)`. */
    function Saved(c: Collection, data: seq<Record>): map<Collection, Slot>
      reads this
    {
      if accepting then slots[c := Json(data)] else slots
    }

    /** `saveToStorage`: the whole collection is replaced; a rejected write changes nothing. */
    method Save(c: Collection, data: seq<Record>)
      modifies this
      ensures slots == old(Saved(c, data)) && accepting == old(accepting)
      ensures GetAll(c) == if accepting then data else old(GetAll(c))
      ensures forall d :: d != c ==> GetAll(d) == old(GetAll(d))
    {
      if accepting {
        slots := slots[c := Json(data)];
      }
    }

    /** `insert(rec)`: appends exactly one stamped record at the end and returns it. */
    method Insert(c: Collection, rec: Record, id: string, now: string) returns (r: Record)
      requires HasInsert(c)
      modifies this
      ensures r == Stamped(rec, id, now)
      ensures slots == old(Saved(c, GetAll(c) + [r])) && accepting == old(accepting)
      ensures GetAll(c) == if accepting then old(GetAll(c)) + [r] else old(GetAll(c))
      ensures forall d :: d != c ==> GetAll(d) == old(GetAll(d))
    {
      var all := GetAll(c);
      r := Stamped(rec, id, now);
      Save(c, all + [r]);
    }

    /** `update(id, updates)`: merges into the first record with that id; `None` (null) and no write when there is none. */
    method Update(c: Collection, id: string, updates: Record, now: string) returns (r: Option<Record>)
      requires HasUpdateAndDelete(c)
      modifies this
      ensures r.None? <==> forall j :: 0 <= j < |old(GetAll(c))| ==> Get(old(GetAll(c))[j], "id") != Str(id)
      ensures r.None? ==> slots == old(slots)
      ensures r.Some? ==> slots == old(Saved(c, UpdateFirst(GetAll(c), id, updates, now)))
      ensures r.Some? ==> r.value == UpdateFirst(old(GetAll(c)), id, updates, now)[FindIndex(HasId(id), old(GetAll(c)))]
      ensures accepting == old(accepting)
      ensures GetAll(c) == if accepting then UpdateFirst(old(GetAll(c)), id, updates, now) else old(GetAll(c))
      ensures forall d :: d != c ==> GetAll(d) == old(GetAll(d))
    {
      var all := GetAll(c);
      var index := FindIndex(HasId(id), all);
      if index != -1 {
        var updated := all[index := Touched(all[index], updates, now)];
        Save(c, updated);
        r := Some(updated[index]);
      } else {
        r := None;
      }
    }

    /** `delete(id)`: drops every record with that id and always reports success. */
    method Delete(c: Collection, id: string) returns (ok: bool)
      requires HasUpdateAndDelete(c)
      modifies this
      ensures ok
      ensures slots == old(Saved(c, WithoutId(GetAll(c), id))) && accepting == old(accepting)
      ensures GetAll(c) == if accepting then WithoutId(old(GetAll(c)), id) else old(GetAll(c))
      ensures forall d :: d != c ==> GetAll(d) == old(GetAll(d))
    {
      var all := GetAll(c);
      Save(c, WithoutId(all, id));
      ok := true;
    }

    /** `classStructure.getByYear(year)`. */
    function ClassStructureOfYear(year: string): (r: Option<Record>)
      reads this
      ensures r.Some? ==> r.value in GetAll(ClassStructures) && Get(r.value, "year") == Str(year)
      ensures r.None? ==> forall x :: x in GetAll(ClassStructures) ==> Get(x, "year") != Str(year)
    {
      FindYear(GetAll(ClassStructures), year)
    }

    /** `classStructure.upsert(year, data)`: merge into that year's record, or append one. */
    method UpsertClassStructure(year: string, data: Record, id: string, now: string) returns (r: Option<Record>)
      modifies this
      ensures slots == old(Saved(ClassStructures, UpsertYear(GetAll(ClassStructures), year, data, id, now)))
      ensures r == FindYear(UpsertYear(old(GetAll(ClassStructures)), year, data, id, now), year)
      ensures accepting == old(accepting)
      ensures GetAll(ClassStructures) == if accepting then UpsertYear(old(GetAll(ClassStructures)), year, data, id, now) else old(GetAll(ClassStructures))
      ensures forall d :: d != ClassStructures ==> GetAll(d) == old(GetAll(d))
    {
      var all := GetAll(ClassStructures);
      var index := FindIndex(HasYear(year), all);
      if index != -1 {
        all := all[index := Touched(all[index], data, now)];
      } else {
        all := all + [Stamped(Merge(data, map["year" := Str(year)]), id, now)];
      }
      Save(ClassStructures, all);
      r := FindYear(all, year);
    }

    /** `subjects.getByYear(year)`: exactly that year's subjects, in stored order. */
    function SubjectsOfYear(year: string): (rs: seq<Record>)
      reads this
      ensures forall x :: x in rs <==> x in GetAll(Subjects) && Get(x, "year") == Str(year)
      ensures forall x :: x in GetAll(Subjects) ==> multiset(rs)[x] == if Get(x, "year") == Str(year) then multiset(GetAll(Subjects))[x] else 0
      ensures IsSubsequence(rs, GetAll(Subjects))
    {
      FilterIsSubsequence(HasYear(year), GetAll(Subjects));
      Filter(HasYear(year), GetAll(Subjects))
    }

    /** `subjects.getByYearAndType(year, types)`: that year's subjects whose `class_type` is listed. */
    function SubjectsOfYearAndType(year: string, types: seq<Value>): (rs: seq<Record>)
      reads this
      ensures forall x :: x in rs <==> x in GetAll(Subjects) && Get(x, "year") == Str(year) && Get(x, "class_type") in types
      ensures forall x :: x in GetAll(Subjects) ==>
        multiset(rs)[x] == if Get(x, "year") == Str(year) && Get(x, "class_type") in types then multiset(GetAll(Subjects))[x] else 0
      ensures IsSubsequence(rs, GetAll(Subjects))
    {
      var p := x => Get(x, "year") == Str(year) && Get(x, "class_type") in types;
      FilterIsSubsequence(p, GetAll(Subjects));
      Filter(p, GetAll(Subjects))
    }

    /** `departmentTimings.get()`: the first record, or `None` (null) when there is none. */
    function Timings(): (r: Option<Record>)
      reads this
      ensures r.None? <==> GetAll(DepartmentTimings) == []
      ensures r.Some? ==> r.value == GetAll(DepartmentTimings)[0]
    {
      var all := GetAll(DepartmentTimings);
      if |all| > 0 then Some(all[0]) else None
    }

    /** `departmentTimings.upsert(data)`: writes to index 0, appending only into an empty collection. */
    method UpsertTimings(data: Record, id: string, now: string) returns (r: Record)
      modifies this
      ensures slots == old(Saved(DepartmentTimings, UpsertFirst(GetAll(DepartmentTimings), data, id, now)))
      ensures r == UpsertFirst(old(GetAll(DepartmentTimings)), data, id, now)[0]
      ensures accepting == old(accepting)
      ensures GetAll(DepartmentTimings) == if accepting then UpsertFirst(old(GetAll(DepartmentTimings)), data, id, now) else old(GetAll(DepartmentTimings))
      ensures forall d :: d != DepartmentTimings ==> GetAll(d) == old(GetAll(d))
    {
      var all := GetAll(DepartmentTimings);
      if |all| > 0 {
        all := all[0 := Touched(all[0], data, now)];
      } else {
        all := [Stamped(data, id, now)];
      }
      Save(DepartmentTimings, all);
      r := all[0];
    }

    /**
     * `facultyAssignments.getByYearAndType(year, type)`: one output per
     * matching assignment, in stored order, each with its faculty and subject
     * attached (`undefined` for a dangling id).
     */
    function AssignmentsOfYearAndType(year: string, kind: string): (rs: seq<Record>)
      reads this
      ensures |rs| == |Filter(IsOfYearAndType(year, kind), GetAll(FacultyAssignments))|
      ensures forall k :: 0 <= k < |rs| ==> Get(rs[k], "year") == Str(year) && Get(rs[k], "assignment_type") == Str(kind)
      ensures forall k :: 0 <= k < |rs| ==> "faculties" in rs[k] && "subjects" in rs[k]
      ensures rs == JoinAssignments(Filter(IsOfYearAndType(year, kind), GetAll(FacultyAssignments)), GetAll(Faculties), GetAll(Subjects))
    {
      var m := Filter(IsOfYearAndType(year, kind), GetAll(FacultyAssignments));
      JoinKeepsField(m, GetAll(Faculties), GetAll(Subjects), "year");
      JoinKeepsField(m, GetAll(Faculties), GetAll(Subjects), "assignment_type");
      JoinAssignments(m, GetAll(Faculties), GetAll(Subjects))
    }

    /** `timetables.getByYearAndSemester(academicYear, semester)`. */
    function TimetablesOf(academicYear: string, semester: string): (rs: seq<Record>)
      reads this
      ensures forall x :: x in rs <==> x in GetAll(Timetables) && Get(x, "academic_year") == Str(academicYear) && Get(x, "semester") == Str(semester)
      ensures forall x :: x in GetAll(Timetables) ==>
        multiset(rs)[x] == if Get(x, "academic_year") == Str(academicYear) && Get(x, "semester") == Str(semester) then multiset(GetAll(Timetables))[x] else 0
      ensures IsSubsequence(rs, GetAll(Timetables))
    {
      var p := x => Get(x, "academic_year") == Str(academicYear) && Get(x, "semester") == Str(semester);
      FilterIsSubsequence(p, GetAll(Timetables));
      Filter(p, GetAll(Timetables))
    }
  }
}
