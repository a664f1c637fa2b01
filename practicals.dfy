/**
 * What the timetable generator reads before it searches
 * (Backend/modules/timetable_generator.py): the lab practicals of a year, the
 * faculty each may be taught by, and the one-hour batch sessions to place.
 *
 * MongoDB documents are records. Wherever Python would raise (a missing key
 * read with `[]`, iterating something that is not a list of dicts, comparing
 * a string with a number) the functions here return `None`; the generator
 * turns that into the result its `except` branch produces.
 */
module Practicals {
  import opened Values
  import opened Seqs
  import opened Text
  import opened Schedule

  const MinPracticalHours := 2

  /**
   * Iterating a value and using each element as a dict: the dicts of a list,
   * nothing for an empty string or dict, and `None` whenever Python would
   * raise (an element that is no dict, a non-empty string or dict, a scalar).
   */
  function Dicts(v: Value): (r: Option<seq<Record>>)
    ensures v.List? && (forall i :: 0 <= i < |v.items| ==> v.items[i].Obj?) ==>
      r.Some? && |r.value| == |v.items| && forall i :: 0 <= i < |v.items| ==> r.value[i] == v.items[i].fields
    ensures v.List? && (exists i :: 0 <= i < |v.items| && !v.items[i].Obj?) ==> r.None?
  {
    match v
    case List(items) =>
      if forall i :: 0 <= i < |items| ==> items[i].Obj? then Some(seq(|items|, i requires 0 <= i < |items| => items[i].fields))
      else None
    case Str(s) => if s == "" then Some([]) else None
    case Obj(m) => if m == map[] then Some([]) else None
    case _ => None
  }

  /** `s.get('hrs_per_week_practical', 0) >= 2`, or `None` where the comparison raises. */
  function IsLabPractical(s: Record): (r: Option<bool>)
    ensures "hrs_per_week_practical" !in s ==> r == Some(false)
    ensures r == Some(true) <==> PyGet(s, "hrs_per_week_practical").Num? && PyGet(s, "hrs_per_week_practical").n >= MinPracticalHours
  {
    if "hrs_per_week_practical" !in s then Some(0 >= MinPracticalHours)
    else match s["hrs_per_week_practical"]
      case Num(n) => Some(n >= MinPracticalHours)
      case Bool(b) => Some((if b then 1 else 0) >= MinPracticalHours)
      case NaN => Some(false)
      case _ => None
  }

  predicate PassesHours(s: Record)
  {
    IsLabPractical(s) == Some(true)
  }

  /** `subjects_doc['year'].get(year_key, [])` as dicts, or `None` when reading it raises or finds no document. */
  function YearSubjects(subjectsDoc: Option<Record>, year: string): Option<seq<Record>>
  {
    if subjectsDoc.None? || "year" !in subjectsDoc.value then None
    else match subjectsDoc.value["year"]
      case Obj(byYear) =>
        var key := AsciiLower(year);
        Dicts(if key in byYear then byYear[key] else List([]))
      case _ => None
  }

  /**
   * `_load_practicals`: the subjects of the year whose practical hours are at
   * least two, in stored order; empty when there is no subjects document or
   * reading it raises.
   */
  function LoadPracticals(subjectsDoc: Option<Record>, year: string): (r: seq<Record>)
    ensures YearSubjects(subjectsDoc, year).None? ==> r == []
    ensures YearSubjects(subjectsDoc, year).Some? && (exists i :: 0 <= i < |YearSubjects(subjectsDoc, year).value| && IsLabPractical(YearSubjects(subjectsDoc, year).value[i]).None?) ==> r == []
    ensures YearSubjects(subjectsDoc, year).Some? && (forall i :: 0 <= i < |YearSubjects(subjectsDoc, year).value| ==> IsLabPractical(YearSubjects(subjectsDoc, year).value[i]).Some?) ==>
      (forall s :: s in r <==> s in YearSubjects(subjectsDoc, year).value && PassesHours(s))
      && IsSubsequence(r, YearSubjects(subjectsDoc, year).value)
    ensures forall i :: 0 <= i < |r| ==> PyGet(r[i], "hrs_per_week_practical").Num? && PyGet(r[i], "hrs_per_week_practical").n >= MinPracticalHours
  {
    match YearSubjects(subjectsDoc, year)
    case None => []
    case Some(ss) =>
      if exists i :: 0 <= i < |ss| && IsLabPractical(ss[i]).None? then []
      else
        FilterIsSubsequence(PassesHours, ss);
        Filter(PassesHours, ss)
  }

  /**
   * `str(v)` for a faculty id: the text of `None`, `True`/`False`, an integer,
   * `nan` or a string. A list or dict id is kept as it is.
   */
  function IdText(v: Value): (t: Value)
    ensures Hashable(v) ==> t.Str?
    ensures v.Str? ==> t == v
    ensures !Hashable(v) ==> t == v
  {
    match v
    case Undefined => Str("None")
    case Null => Str("None")
    case Bool(b) => Str(if b then "True" else "False")
    case Num(n) => Str(IntToString(n))
    case NaN => Str("nan")
    case Str(s) => v
    case List(_) => v
    case Obj(_) => v
  }

  /**
   * `{str(f['_id']): f['name'] for f in faculties}`; `None` when a faculty
   * document lacks either field.
   */
  function IdToName(faculties: seq<Record>): (r: Option<map<Value, Value>>)
    ensures r.Some? <==> forall i :: 0 <= i < |faculties| ==> "_id" in faculties[i] && "name" in faculties[i]
    ensures r.Some? ==> forall id :: id in r.value ==> exists i :: 0 <= i < |faculties| && IdText(faculties[i]["_id"]) == id && faculties[i]["name"] == r.value[id]
    decreases |faculties|
  {
    if faculties == [] then Some(map[])
    else
      var prefix := faculties[..|faculties| - 1];
      var last := faculties[|faculties| - 1];
      assert forall i :: 0 <= i < |prefix| ==> prefix[i] == faculties[i];
      match IdToName(prefix)
      case None => None
      case Some(m) =>
        if "_id" in last && "name" in last then Some(m[IdText(last["_id"]) := last["name"]]) else None
  }

  /** Every faculty's id text is a key of the map, so any workload naming that text finds a name. */
  lemma {:induction false} IdToNameCovers(faculties: seq<Record>)
    requires IdToName(faculties).Some?
    ensures forall i :: 0 <= i < |faculties| ==> IdText(faculties[i]["_id"]) in IdToName(faculties).value
    decreases |faculties|
  {
    if faculties != [] {
      var prefix := faculties[..|faculties| - 1];
      assert forall i :: 0 <= i < |prefix| ==> prefix[i] == faculties[i];
      IdToNameCovers(prefix);
    }
  }

  /** A workload's subjects of the generator's year: `[s for s in subjects if s.get('year') == year]`. */
  function OfYear(year: string): Record -> bool
  {
    s => PyGet(s, "year") == Str(year)
  }

  /**
   * One turn of the loop of `_get_faculty_subjects_mapping`: a workload whose
   * faculty id names a faculty with a truthy name records that faculty's
   * subjects of the year, when there are some, replacing what an earlier
   * workload recorded for the same name.
   */
  function MappingStep(m: map<Value, seq<Record>>, w: Record, names: map<Value, Value>, year: string): Option<map<Value, seq<Record>>>
  {
    var id := IdText(if "faculty_id" in w then w["faculty_id"] else Str(""));
    var name := if id in names then names[id] else Null;
    if !PyTruthy(name) then Some(m)
    else match Dicts(if "subjects" in w then w["subjects"] else List([]))
      case None => None
      case Some(ss) =>
        var mine := Filter(OfYear(year), ss);
        if mine == [] then Some(m)
        else if !Hashable(name) then None
        else Some(m[name := mine])
  }

  /** The mapping after the loop has seen `workloads`, or `None` once a turn raised. */
  function Mapping(workloads: seq<Record>, names: map<Value, Value>, year: string): Option<map<Value, seq<Record>>>
    decreases |workloads|
  {
    if workloads == [] then Some(map[])
    else match Mapping(workloads[..|workloads| - 1], names, year)
      case None => None
      case Some(m) => MappingStep(m, workloads[|workloads| - 1], names, year)
  }

  /** Once a turn raised, so does the whole loop. */
  lemma {:induction false} MappingNoneStays(workloads: seq<Record>, names: map<Value, Value>, year: string, k: nat)
    requires k <= |workloads|
    requires Mapping(workloads[..k], names, year).None?
    ensures Mapping(workloads, names, year).None?
    decreases |workloads| - k
  {
    if k < |workloads| {
      assert workloads[..k + 1][..k] == workloads[..k];
      MappingNoneStays(workloads, names, year, k + 1);
    } else {
      assert workloads[..k] == workloads;
    }
  }

  /** The mapping only ever holds truthy faculty names with a non-empty list of that year's subjects. */
  ghost predicate SoundMapping(m: map<Value, seq<Record>>, names: map<Value, Value>, year: string)
  {
    forall k :: k in m ==>
      && PyTruthy(k) && k in names.Values
      && m[k] != []
      && forall j :: 0 <= j < |m[k]| ==> PyGet(m[k][j], "year") == Str(year)
  }

  lemma {:induction false} MappingSound(workloads: seq<Record>, names: map<Value, Value>, year: string)
    requires Mapping(workloads, names, year).Some?
    ensures SoundMapping(Mapping(workloads, names, year).value, names, year)
    decreases |workloads|
  {
    if workloads != [] {
      var prefix := workloads[..|workloads| - 1];
      MappingSound(prefix, names, year);
      var m := Mapping(prefix, names, year).value;
      var w := workloads[|workloads| - 1];
      var id := IdText(if "faculty_id" in w then w["faculty_id"] else Str(""));
      if id in names {
        assert names[id] in names.Values;
      }
    }
  }

  /**
   * `_get_faculty_subjects_mapping`: faculty name to the workload subjects of
   * the year; an empty mapping when reading a document raises.
   */
  function FacultySubjects(workloads: seq<Record>, faculties: seq<Record>, year: string): (r: map<Value, seq<Record>>)
    ensures IdToName(faculties).None? ==> r == map[]
    ensures IdToName(faculties).Some? ==> SoundMapping(r, IdToName(faculties).value, year)
  {
    match IdToName(faculties)
    case None => map[]
    case Some(names) =>
      match Mapping(workloads, names, year)
      case None => map[]
      case Some(m) => MappingSound(workloads, names, year); m
  }

  /**
   * `_is_faculty_qualified`: the name is mapped and one of its entries is of
   * the generator's year. The subject is not consulted.
   */
  predicate Qualified(name: Value, subjectFull: Value, fmap: map<Value, seq<Record>>, year: string)
  {
    name in fmap && exists j :: 0 <= j < |fmap[name]| && PyGet(fmap[name][j], "year") == Str(year)
  }

  /**
   * On a mapping the generator builds, being qualified for a subject is the
   * same as being mapped at all: every mapped faculty may take every
   * practical of the year.
   */
  lemma QualifiedIffMapped(name: Value, subjectFull: Value, fmap: map<Value, seq<Record>>, names: map<Value, Value>, year: string)
    requires SoundMapping(fmap, names, year)
    ensures Qualified(name, subjectFull, fmap, year) <==> name in fmap
  {
    if name in fmap {
      assert PyGet(fmap[name][0], "year") == Str(year);
    }
  }

  /**
   * A workload refers to its faculty by the text of the id: a faculty whose
   * `_id` is the number n takes the workload whose `faculty_id` is the
   * decimal text of n.
   */
  lemma NumericIdMatchesText(n: int, name: Value, entry: Record, year: string)
    requires PyTruthy(name) && Hashable(name) && PyGet(entry, "year") == Str(year)
    ensures
      var faculty := map["_id" := Num(n), "name" := name];
      var workload := map["faculty_id" := Str(IntToString(n)), "subjects" := List([Obj(entry)])];
      FacultySubjects([workload], [faculty], year) == map[name := [entry]]
  {
    var faculty := map["_id" := Num(n), "name" := name];
    var workload := map["faculty_id" := Str(IntToString(n)), "subjects" := List([Obj(entry)])];
    var names := map[Str(IntToString(n)) := name];
    assert [faculty][..0] == [];
    assert IdToName([faculty]) == Some(names);
    OneWorkloadMapping(workload, names, entry, year);
  }

  /** The loop over a single workload whose id names a faculty and whose one subject is of the year. */
  lemma OneWorkloadMapping(workload: Record, names: map<Value, Value>, entry: Record, year: string)
    requires "faculty_id" in workload && workload["faculty_id"].Str?
    requires workload["faculty_id"] in names && PyTruthy(names[workload["faculty_id"]]) && Hashable(names[workload["faculty_id"]])
    requires "subjects" in workload && workload["subjects"] == List([Obj(entry)])
    requires PyGet(entry, "year") == Str(year)
    ensures Mapping([workload], names, year) == Some(map[names[workload["faculty_id"]] := [entry]])
  {
    var subjects := Dicts(List([Obj(entry)]));
    assert subjects.Some? && |subjects.value| == 1 && subjects.value[0] == entry;
    assert subjects.value == [entry];
    assert Filter(OfYear(year), [entry]) == [entry];
    assert [workload][..0] == [];
  }

  /** A class of the year as `_prepare_batch_assignments` reads it: its division and `batches` (default 1). */
  datatype ClassInfo = ClassInfo(division: Value, batches: int)

  /** `class_info['div']` and `class_info.get('batches', 1)` usable in `range`, or `None` where Python raises. */
  function ParseClass(v: Value): (r: Option<ClassInfo>)
    ensures r.Some? ==> v.Obj? && "div" in v.fields && r.value.division == v.fields["div"]
    ensures v.Obj? && "div" in v.fields && "batches" !in v.fields ==> r == Some(ClassInfo(v.fields["div"], 1))
  {
    match v
    case Obj(c) =>
      if "div" !in c then None
      else (
        match (if "batches" in c then c["batches"] else Num(1))
        case Num(n) => Some(ClassInfo(c["div"], n))
        case Bool(b) => Some(ClassInfo(c["div"], if b then 1 else 0))
        case _ => None)
    case _ => None
  }

  /** `_get_classes_for_year`: `class_struct.get(year_key, [])`, or `[]` without a (non-empty) document. */
  function YearClasses(classDoc: Option<Record>, year: string): Value
  {
    if classDoc.None? || classDoc.value == map[] then List([])
    else
      var key := AsciiLower(year);
      if key in classDoc.value then classDoc.value[key] else List([])
  }

  /** The practical carries the two fields every session copies. */
  predicate Named(p: Record)
  {
    "short_name" in p && "name" in p
  }

  /** Batches 1..n of one division, one hour each. */
  function DivisionSessions(p: Record, info: ClassInfo, year: string, n: nat): (r: seq<BatchAssignment>)
    requires Named(p)
    ensures |r| == n
    ensures forall k :: 0 <= k < n ==> r[k] == BatchAssignment(p["short_name"], p["name"], year, info.division, k + 1, 1)
  {
    if n == 0 then []
    else DivisionSessions(p, info, year, n - 1) + [BatchAssignment(p["short_name"], p["name"], year, info.division, n, 1)]
  }

  function Count(b: int): nat
  {
    if b < 0 then 0 else b
  }

  /** One turn of the class loop for one practical, or `None` where it raises. */
  function ClassStep(p: Record, c: Value, year: string): Option<seq<BatchAssignment>>
  {
    match ParseClass(c)
    case None => None
    case Some(info) =>
      if Count(info.batches) == 0 then Some([])
      else if !Named(p) then None
      else Some(DivisionSessions(p, info, year, Count(info.batches)))
  }

  /** What one turn of the class loop gives, by cases. */
  lemma ClassStepCases(p: Record, c: Value, year: string, info: ClassInfo)
    requires ParseClass(c) == Some(info)
    ensures Count(info.batches) == 0 ==> ClassStep(p, c, year) == Some([])
    ensures Count(info.batches) > 0 && !Named(p) ==> ClassStep(p, c, year).None?
    ensures Count(info.batches) > 0 && Named(p) ==> ClassStep(p, c, year) == Some(DivisionSessions(p, info, year, Count(info.batches)))
  {
  }

  /** The sessions of one practical over the given classes. */
  function PracticalSessions(p: Record, classes: seq<Value>, year: string): Option<seq<BatchAssignment>>
    decreases |classes|
  {
    if classes == [] then Some([])
    else match PracticalSessions(p, classes[..|classes| - 1], year)
      case None => None
      case Some(out) =>
        match ClassStep(p, classes[|classes| - 1], year)
        case None => None
        case Some(more) => Some(out + more)
  }

  /** The sessions of the given practicals, practical by practical. */
  function Sessions(practicals: seq<Record>, classes: seq<Value>, year: string): Option<seq<BatchAssignment>>
    decreases |practicals|
  {
    if practicals == [] then Some([])
    else match Sessions(practicals[..|practicals| - 1], classes, year)
      case None => None
      case Some(out) =>
        match PracticalSessions(practicals[|practicals| - 1], classes, year)
        case None => None
        case Some(more) => Some(out + more)
  }

  /**
   * `_prepare_batch_assignments` on the year's classes: nothing when there
   * are none; otherwise the sessions, or `None` where the loop raises
   * (a class value that cannot be iterated, a class without `div`, ...).
   */
  function Prepare(practicals: seq<Record>, yearClasses: Value, year: string): Option<seq<BatchAssignment>>
  {
    if !PyTruthy(yearClasses) then Some([])
    else if !yearClasses.List? then (if practicals == [] then Some([]) else None)
    else Sessions(practicals, yearClasses.items, year)
  }

  lemma {:induction false} PracticalSessionsNoneStays(p: Record, classes: seq<Value>, year: string, k: nat)
    requires k <= |classes|
    requires PracticalSessions(p, classes[..k], year).None?
    ensures PracticalSessions(p, classes, year).None?
    decreases |classes| - k
  {
    if k < |classes| {
      assert classes[..k + 1][..k] == classes[..k];
      PracticalSessionsNoneStays(p, classes, year, k + 1);
    } else {
      assert classes[..k] == classes;
    }
  }

  lemma {:induction false} SessionsNoneStays(practicals: seq<Record>, classes: seq<Value>, year: string, k: nat)
    requires k <= |practicals|
    requires Sessions(practicals[..k], classes, year).None?
    ensures Sessions(practicals, classes, year).None?
    decreases |practicals| - k
  {
    if k < |practicals| {
      assert practicals[..k + 1][..k] == practicals[..k];
      SessionsNoneStays(practicals, classes, year, k + 1);
    } else {
      assert practicals[..k] == practicals;
    }
  }

  lemma SessionsSnoc(practicals: seq<Record>, classes: seq<Value>, year: string, i: nat, out: seq<BatchAssignment>, more: seq<BatchAssignment>)
    requires i < |practicals|
    requires Sessions(practicals[..i], classes, year) == Some(out)
    requires PracticalSessions(practicals[i], classes, year) == Some(more)
    ensures Sessions(practicals[..i + 1], classes, year) == Some(out + more)
  {
    assert practicals[..i + 1][..i] == practicals[..i];
  }

  lemma PracticalSessionsSnoc(p: Record, classes: seq<Value>, year: string, j: nat, cur: seq<BatchAssignment>, more: seq<BatchAssignment>)
    requires j < |classes|
    requires PracticalSessions(p, classes[..j], year) == Some(cur)
    requires ClassStep(p, classes[j], year) == Some(more)
    ensures PracticalSessions(p, classes[..j + 1], year) == Some(cur + more)
  {
    assert classes[..j + 1][..j] == classes[..j];
  }

  /** A turn that raises ends the whole preparation in `None`. */
  lemma SessionsFailAt(practicals: seq<Record>, classes: seq<Value>, year: string, i: nat, j: nat)
    requires i < |practicals| && j < |classes|
    requires ClassStep(practicals[i], classes[j], year).None?
    ensures Sessions(practicals, classes, year).None?
  {
    var p := practicals[i];
    assert classes[..j + 1][..j] == classes[..j];
    assert PracticalSessions(p, classes[..j + 1], year).None?;
    PracticalSessionsNoneStays(p, classes, year, j + 1);
    assert practicals[..i + 1][..i] == practicals[..i];
    assert Sessions(practicals[..i + 1], classes, year).None?;
    SessionsNoneStays(practicals, classes, year, i + 1);
  }

  /** The classes read as `ClassInfo`s, or `None` when one cannot be. */
  function ParseClasses(classes: seq<Value>): (r: Option<seq<ClassInfo>>)
    ensures r.Some? <==> forall j :: 0 <= j < |classes| ==> ParseClass(classes[j]).Some?
    ensures r.Some? ==> |r.value| == |classes| && forall j :: 0 <= j < |classes| ==> ParseClass(classes[j]) == Some(r.value[j])
    decreases |classes|
  {
    if classes == [] then Some([])
    else match ParseClasses(classes[..|classes| - 1])
      case None => None
      case Some(cs) =>
        match ParseClass(classes[|classes| - 1])
        case None => None
        case Some(c) => Some(cs + [c])
  }

  /** Σ batches over the classes, a non-positive count giving no batch. */
  function TotalBatches(cs: seq<ClassInfo>): nat
  {
    if cs == [] then 0 else TotalBatches(cs[..|cs| - 1]) + Count(cs[|cs| - 1].batches)
  }

  /** Each practical gives exactly Σ batches sessions. */
  lemma {:induction false} PracticalSessionsCount(p: Record, classes: seq<Value>, year: string)
    requires PracticalSessions(p, classes, year).Some?
    ensures ParseClasses(classes).Some?
    ensures |PracticalSessions(p, classes, year).value| == TotalBatches(ParseClasses(classes).value)
    decreases |classes|
  {
    if classes != [] {
      var prefix := classes[..|classes| - 1];
      PracticalSessionsCount(p, prefix, year);
      assert ParseClasses(classes).value[..|classes| - 1] == ParseClasses(prefix).value;
    }
  }

  /** So the sessions number |practicals| × Σ batches. */
  lemma {:induction false} SessionsCount(practicals: seq<Record>, classes: seq<Value>, year: string)
    requires Sessions(practicals, classes, year).Some?
    requires practicals != []
    ensures ParseClasses(classes).Some?
    ensures |Sessions(practicals, classes, year).value| == |practicals| * TotalBatches(ParseClasses(classes).value)
    decreases |practicals|
  {
    var prefix := practicals[..|practicals| - 1];
    var last := practicals[|practicals| - 1];
    PracticalSessionsCount(last, classes, year);
    var t := TotalBatches(ParseClasses(classes).value);
    var n := |Sessions(practicals, classes, year).value|;
    assert n == |Sessions(prefix, classes, year).value| + t;
    if prefix != [] {
      SessionsCount(prefix, classes, year);
      MulSucc(|prefix|, t);
    }
  }

  lemma MulSucc(a: nat, t: nat)
    ensures a * t + t == (a + 1) * t
  {
  }

  /** Every session is one hour, of the generator's year, with a batch number from 1 up. */
  lemma {:induction false} SessionsShape(practicals: seq<Record>, classes: seq<Value>, year: string)
    requires Sessions(practicals, classes, year).Some?
    ensures forall b :: b in Sessions(practicals, classes, year).value ==> b.hours == 1 && b.className == year && b.batch >= 1
    decreases |practicals|
  {
    if practicals != [] {
      SessionsShape(practicals[..|practicals| - 1], classes, year);
      PracticalSessionsShape(practicals[|practicals| - 1], classes, year);
    }
  }

  lemma {:induction false} PracticalSessionsShape(p: Record, classes: seq<Value>, year: string)
    requires PracticalSessions(p, classes, year).Some?
    ensures forall b :: b in PracticalSessions(p, classes, year).value ==> b.hours == 1 && b.className == year && b.batch >= 1
    decreases |classes|
  {
    if classes != [] {
      PracticalSessionsShape(p, classes[..|classes| - 1], year);
    }
  }

  /** A non-empty list of practicals fails exactly when a class cannot be read, or a practical lacking a name would get a session. */
  lemma {:induction false} SessionsNoneWhen(practicals: seq<Record>, classes: seq<Value>, year: string)
    requires practicals != []
    ensures ParseClasses(classes).None? ==> Sessions(practicals, classes, year).None?
    ensures ParseClasses(classes).Some? ==>
      (Sessions(practicals, classes, year).None? <==>
        TotalBatches(ParseClasses(classes).value) > 0 && exists i :: 0 <= i < |practicals| && !Named(practicals[i]))
    decreases |practicals|
  {
    var prefix := practicals[..|practicals| - 1];
    var last := practicals[|practicals| - 1];
    PracticalSessionsNoneWhen(last, classes, year);
    if prefix != [] {
      SessionsNoneWhen(prefix, classes, year);
      if ParseClasses(classes).Some? {
        if exists i :: 0 <= i < |practicals| && !Named(practicals[i]) {
          var i :| 0 <= i < |practicals| && !Named(practicals[i]);
          if i < |prefix| {
            assert !Named(prefix[i]);
          }
        }
        if exists i :: 0 <= i < |prefix| && !Named(prefix[i]) {
          var i :| 0 <= i < |prefix| && !Named(prefix[i]);
          assert !Named(practicals[i]);
        }
      }
    } else {
      if ParseClasses(classes).Some? && exists i :: 0 <= i < |practicals| && !Named(practicals[i]) {
        var i :| 0 <= i < |practicals| && !Named(practicals[i]);
        assert i == 0;
      }
    }
  }

  lemma {:induction false} PracticalSessionsNoneWhen(p: Record, classes: seq<Value>, year: string)
    ensures ParseClasses(classes).None? ==> PracticalSessions(p, classes, year).None?
    ensures ParseClasses(classes).Some? ==>
      (PracticalSessions(p, classes, year).None? <==> TotalBatches(ParseClasses(classes).value) > 0 && !Named(p))
    decreases |classes|
  {
    if classes != [] {
      var prefix := classes[..|classes| - 1];
      PracticalSessionsNoneWhen(p, prefix, year);
      if ParseClasses(classes).Some? {
        assert ParseClasses(classes).value[..|classes| - 1] == ParseClasses(prefix).value;
      }
    }
  }
}
