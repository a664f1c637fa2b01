/**
 * `PracticalTimetableGenerator` (Backend/modules/timetable_generator.py):
 * loads the practicals of a year, fans them out into one-hour batch
 * sessions, and places every session in a lab, day and period by
 * depth-first search with make/undo, under three hard constraints.
 *
 * The MongoDB collections the generator reads are parameters of `Generate`.
 * `self.timetable` is the pair of the fields `year`/`semester` and the grid
 * `grid` (its `labs` entry); `self.assignments` is `assignments`.
 */
module Generator {
  import opened Values
  import opened Seqs
  import opened Schedule
  import opened Practicals

  /** The returned timetable: `{'year': ..., 'semester': ..., 'labs': ...}`. */
  datatype Timetable = Timetable(year: string, semester: Value, labs: Grid)

  /** Every lab name with an empty week. */
  function EmptyGrid(labs: seq<Record>): (g: Grid)
    ensures g.Keys == LabNames(labs)
    ensures WellFormed(g) && forall lab, c: Cell :: lab in g ==> g[lab][c] == []
  {
    map n | n in LabNames(labs) :: EmptyWeek()
  }

  /**
   * The grid `_initialize_timetable` builds, or `None` when some lab's name
   * is a list or dict: using it as a key of `timetable['labs']` raises.
   */
  function InitialGrid(labs: seq<Record>): (r: Option<Grid>)
    ensures r.Some? <==> forall i :: 0 <= i < |labs| ==> Hashable(LabName(labs[i]))
    ensures r.Some? ==> r.value.Keys == LabNames(labs) && WellFormed(r.value)
    ensures r.Some? ==> forall lab, c: Cell :: lab in r.value ==> r.value[lab][c] == []
  {
    if forall i :: 0 <= i < |labs| ==> Hashable(LabName(labs[i])) then Some(EmptyGrid(labs)) else None
  }

  /** Adding the next lab to the grid of the labs before it. */
  lemma EmptyGridSnoc(labs: seq<Record>, i: nat)
    requires i < |labs|
    ensures EmptyGrid(labs[..i + 1]) == EmptyGrid(labs[..i])[LabName(labs[i]) := EmptyWeek()]
  {
    assert LabNames(labs[..i + 1]) == LabNames(labs[..i]) + {LabName(labs[i])};
  }

  /** The sessions the placements are for, in order. */
  function SessionsOf(ps: seq<Placement>): (r: seq<BatchAssignment>)
    ensures |r| == |ps| && forall k :: 0 <= k < |ps| ==> r[k] == ps[k].assignment
  {
    seq(|ps|, k requires 0 <= k < |ps| => ps[k].assignment)
  }

  lemma SessionsOfCons(p: Placement, ps: seq<Placement>)
    ensures SessionsOf([p] + ps) == [p.assignment] + SessionsOf(ps)
  {
  }

  /**
   * How one level of the search ends: every remaining session placed, every
   * choice tried in vain, or a `TypeError` raised (and caught by `generate`).
   */
  datatype Outcome = Placed | Exhausted | Raised

  /** Some faculty's name is a list or dict, which `_is_faculty_qualified` cannot look up. */
  predicate SomeFacultyUnhashable(faculties: seq<Record>)
  {
    exists f :: 0 <= f < |faculties| && !Hashable(FacultyName(faculties[f]))
  }

  /** The placements from `n` on, made on `start`, each sit alone in their lab's cell once the final check holds. */
  lemma EachPlacedAlone(start: Grid, all: seq<Placement>, n: nat)
    requires WellFormed(start) && n <= |all|
    requires forall k :: n <= k < |all| ==> all[k].lab in start
    requires AtMostOnePerCell(PlaceAll(start, all[n..]))
    ensures forall k :: n <= k < |all| ==>
      PlaceAll(start, all[n..])[all[k].lab][Cell(all[k].day, all[k].period)] == [EntryOf(all[k])]
  {
    var ps := all[n..];
    forall k | n <= k < |all|
      ensures PlaceAll(start, ps)[all[k].lab][Cell(all[k].day, all[k].period)] == [EntryOf(all[k])]
    {
      var p := ps[k - n];
      assert p == all[k];
      PlacedAlone(start, ps, k - n);
    }
  }

  /** Every placement's faculty is qualified for its session. */
  predicate AllQualified(ps: seq<Placement>, fmap: map<Value, seq<Record>>, year: string)
  {
    forall k :: 0 <= k < |ps| ==> Qualified(ps[k].faculty, ps[k].assignment.subjectFull, fmap, year)
  }

  class TimetableGenerator {
    var year: string
    var semester: Value
    var grid: Grid
    var assignments: seq<Placement>

    ghost predicate Valid()
      reads this
    {
      WellFormed(grid)
    }

    constructor (year: string, semester: Value)
      ensures this.year == year && this.semester == semester
      ensures grid == map[] && assignments == []
      ensures Valid()
    {
      this.year := year;
      this.semester := semester;
      grid := map[];
      assignments := [];
    }

    /** `_get_faculty_subjects_mapping`: the loop over the workloads, giving up with `{}` when a turn raises. */
    method FacultySubjectsMapping(workloads: seq<Record>, faculties: seq<Record>) returns (m: map<Value, seq<Record>>)
      ensures m == FacultySubjects(workloads, faculties, year)
    {
      var idToName := IdToName(faculties);
      if idToName.None? {
        return map[];
      }
      var names := idToName.value;
      m := map[];
      for i := 0 to |workloads|
        invariant Mapping(workloads[..i], names, year) == Some(m)
      {
        assert workloads[..i + 1][..i] == workloads[..i];
        var w := workloads[i];
        var id := IdText(if "faculty_id" in w then w["faculty_id"] else Str(""));
        var name := if id in names then names[id] else Null;
        if PyTruthy(name) {
          var subjects := Dicts(if "subjects" in w then w["subjects"] else List([]));
          if subjects.None? {
            MappingNoneStays(workloads, names, year, i + 1);
            return map[];
          }
          var mine := Filter(OfYear(year), subjects.value);
          if mine != [] {
            if !Hashable(name) {
              MappingNoneStays(workloads, names, year, i + 1);
              return map[];
            }
            m := m[name := mine];
          }
        }
      }
      assert workloads[..|workloads|] == workloads;
    }

    /**
     * `_prepare_batch_assignments`: for each practical, each class of the
     * year and each batch 1..`batches`, one one-hour session; `None` where
     * the loop raises.
     */
    method PrepareBatchAssignments(practicals: seq<Record>, classDoc: Option<Record>) returns (r: Option<seq<BatchAssignment>>)
      ensures r == Prepare(practicals, YearClasses(classDoc, year), year)
    {
      var yearClasses := YearClasses(classDoc, year);
      if !PyTruthy(yearClasses) {
        return Some([]);
      }
      if !yearClasses.List? {
        // the first practical's turn tries to iterate the classes and raises
        return if practicals == [] then Some([]) else None;
      }
      var classes := yearClasses.items;
      var out: seq<BatchAssignment> := [];
      for i := 0 to |practicals|
        invariant Sessions(practicals[..i], classes, year) == Some(out)
      {
        var more := PracticalBatches(practicals[i], classes);
        if more.None? {
          assert practicals[..i + 1][..i] == practicals[..i];
          SessionsNoneStays(practicals, classes, year, i + 1);
          return None;
        }
        SessionsSnoc(practicals, classes, year, i, out, more.value);
        out := out + more.value;
      }
      assert practicals[..|practicals|] == practicals;
      return Some(out);
    }

    /** The class loop for one practical. */
    method PracticalBatches(p: Record, classes: seq<Value>) returns (r: Option<seq<BatchAssignment>>)
      ensures r == PracticalSessions(p, classes, year)
    {
      var cur: seq<BatchAssignment> := [];
      for j := 0 to |classes|
        invariant PracticalSessions(p, classes[..j], year) == Some(cur)
      {
        var more := ClassBatches(p, classes[j]);
        if more.None? {
          assert classes[..j + 1][..j] == classes[..j];
          PracticalSessionsNoneStays(p, classes, year, j + 1);
          return None;
        }
        PracticalSessionsSnoc(p, classes, year, j, cur, more.value);
        cur := cur + more.value;
      }
      assert classes[..|classes|] == classes;
      return Some(cur);
    }

    /** One turn of the class loop: a session per batch of the class's division, batches numbered from 1. */
    method ClassBatches(p: Record, c: Value) returns (r: Option<seq<BatchAssignment>>)
      ensures r == ClassStep(p, c, year)
    {
      var info := ParseClass(c);
      if info.None? {
        return None;
      }
      ClassStepCases(p, c, year, info.value);
      var out: seq<BatchAssignment> := [];
      for b := 1 to Count(info.value.batches) + 1
        invariant b == 1 ==> out == []
        invariant b > 1 ==> Named(p) && out == DivisionSessions(p, info.value, year, b - 1)
      {
        if !Named(p) {
          return None;
        }
        out := out + [BatchAssignment(p["short_name"], p["name"], year, info.value.division, b, 1)];
      }
      return Some(out);
    }

    /**
     * `_initialize_timetable`: every lab name gets five days of three empty
     * period lists. The first lab whose name is a list or dict raises, and
     * the grid holds the labs before it.
     */
    method InitializeTimetable(labs: seq<Record>) returns (raised: bool)
      modifies this
      ensures raised <==> InitialGrid(labs).None?
      ensures !raised ==> grid == InitialGrid(labs).value
      ensures raised ==> exists i :: 0 <= i < |labs| && !Hashable(LabName(labs[i])) && grid == EmptyGrid(labs[..i])
      ensures year == old(year) && semester == old(semester) && assignments == old(assignments)
      ensures Valid()
    {
      grid := map[];
      for i := 0 to |labs|
        invariant grid == EmptyGrid(labs[..i])
        invariant forall j :: 0 <= j < i ==> Hashable(LabName(labs[j]))
        invariant year == old(year) && semester == old(semester) && assignments == old(assignments)
      {
        var name := LabName(labs[i]);
        if !Hashable(name) {
          return true;
        }
        var week := NewWeek();
        EmptyGridSnoc(labs, i);
        grid := grid[name := week];
      }
      assert labs[..|labs|] == labs;
      return false;
    }

    /** The inner loops of `_initialize_timetable`: one lab's five days of three empty period lists. */
    static method NewWeek() returns (week: Schedule)
      ensures week == EmptyWeek()
    {
      week := map[];
      for d := 0 to |Days|
        invariant forall c: Cell :: c in week <==> DayIndex(c.day) < d
        invariant forall c :: c in week ==> week[c] == []
      {
        assert forall c: Cell :: c.period in Periods by {
          forall c: Cell ensures c.period in Periods {
            assert Periods[PeriodIndex(c.period)] == c.period;
          }
        }
        assert forall c: Cell :: c.day == Days[d] <==> DayIndex(c.day) == d;
        week := week + map p | p in Periods :: Cell(Days[d], p) := [];
      }
    }

    /** `_has_batch_conflict`: does any lab hold this batch in this cell? */
    method HasBatchConflict(a: BatchAssignment, c: Cell) returns (r: bool)
      requires Valid()
      ensures r == BatchBusy(grid, a, c)
    {
      var unseen := grid.Keys;
      while unseen != {}
        invariant unseen <= grid.Keys
        invariant forall lab, i :: lab in grid && lab !in unseen && 0 <= i < |grid[lab][c]| ==> !SameBatch(grid[lab][c][i], a)
        decreases |unseen|
      {
        var lab :| lab in unseen;
        var slot := grid[lab][c];
        for i := 0 to |slot|
          invariant forall k :: 0 <= k < i ==> !SameBatch(slot[k], a)
        {
          if SameBatch(slot[i], a) {
            return true;
          }
        }
        unseen := unseen - {lab};
      }
      return false;
    }

    /** `_has_lab_conflict`: is the lab in the grid with this cell taken? */
    method HasLabConflict(lab: Record, c: Cell) returns (r: bool)
      requires Valid()
      ensures r == LabBusy(grid, LabName(lab), c)
    {
      var name := LabName(lab);
      if name in grid {
        return |grid[name][c]| > 0;
      }
      return false;
    }

    /** `_has_faculty_conflict`: does any lab have this faculty in this cell? */
    method HasFacultyConflict(faculty: Value, c: Cell) returns (r: bool)
      requires Valid()
      ensures r == FacultyBusy(grid, faculty, c)
    {
      var unseen := grid.Keys;
      while unseen != {}
        invariant unseen <= grid.Keys
        invariant forall lab, i :: lab in grid && lab !in unseen && 0 <= i < |grid[lab][c]| ==> grid[lab][c][i].faculty != faculty
        decreases |unseen|
      {
        var lab :| lab in unseen;
        var slot := grid[lab][c];
        for i := 0 to |slot|
          invariant forall k :: 0 <= k < i ==> slot[k].faculty != faculty
        {
          if slot[i].faculty == faculty {
            return true;
          }
        }
        unseen := unseen - {lab};
      }
      return false;
    }

    /**
     * `_is_faculty_qualified`: mapped, with some entry of the generator's
     * year; `None` for a list or dict name, where the `in` test raises.
     */
    method IsFacultyQualified(name: Value, subjectFull: Value, fmap: map<Value, seq<Record>>) returns (r: Option<bool>)
      ensures r.None? <==> !Hashable(name)
      ensures r.Some? ==> (r.value <==> Qualified(name, subjectFull, fmap, year))
    {
      if !Hashable(name) {
        return None;
      }
      if name !in fmap {
        return Some(false);
      }
      var entries := fmap[name];
      for j := 0 to |entries|
        invariant forall k :: 0 <= k < j ==> PyGet(entries[k], "year") != Str(year)
      {
        if PyGet(entries[j], "year") == Str(year) {
          return Some(true);
        }
      }
      return Some(false);
    }

    /** `_is_valid_assignment`: true exactly when none of the three conflicts holds. */
    method IsValidAssignment(a: BatchAssignment, day: Day, period: Period, lab: Record, faculty: Value) returns (r: bool)
      requires Valid()
      ensures r == Free(grid, a, Cell(day, period), LabName(lab), faculty)
    {
      var c := Cell(day, period);
      var busy := HasBatchConflict(a, c);
      if busy {
        return false;
      }
      busy := HasLabConflict(lab, c);
      if busy {
        return false;
      }
      busy := HasFacultyConflict(faculty, c);
      if busy {
        return false;
      }
      return true;
    }

    /** `_make_assignment`: append the entry to the lab's cell and record the placement. */
    method MakeAssignment(a: BatchAssignment, day: Day, period: Period, lab: Record, faculty: Value)
      requires Valid()
      modifies this
      ensures grid == Place(old(grid), Placement(a, day, period, LabName(lab), faculty))
      ensures assignments == old(assignments) + [Placement(a, day, period, LabName(lab), faculty)]
      ensures year == old(year) && semester == old(semester) && Valid()
    {
      var p := Placement(a, day, period, LabName(lab), faculty);
      var c := Cell(day, period);
      if p.lab in grid {
        grid := grid[p.lab := grid[p.lab][c := grid[p.lab][c] + [EntryOf(p)]]];
      }
      assignments := assignments + [p];
    }

    /** `_undo_assignment`: drop the last placement and the last entry of the lab's cell, each when there is one. */
    method UndoAssignment(a: BatchAssignment, day: Day, period: Period, lab: Record)
      requires Valid()
      modifies this
      ensures grid == Unplace(old(grid), LabName(lab), Cell(day, period))
      ensures assignments == if old(assignments) == [] then [] else old(assignments)[..|old(assignments)| - 1]
      ensures year == old(year) && semester == old(semester) && Valid()
    {
      if assignments != [] {
        assignments := assignments[..|assignments| - 1];
      }
      var name := LabName(lab);
      var c := Cell(day, period);
      if name in grid {
        var slot := grid[name][c];
        if slot != [] {
          grid := grid[name := grid[name][c := slot[..|slot| - 1]]];
        }
      }
    }

    /** `_validate_final_timetable`: no lab cell holds more than one entry. */
    method ValidateFinalTimetable() returns (ok: bool)
      requires Valid()
      ensures ok == AtMostOnePerCell(grid)
    {
      var unseen := grid.Keys;
      while unseen != {}
        invariant unseen <= grid.Keys
        invariant forall lab, c: Cell :: lab in grid && lab !in unseen ==> |grid[lab][c]| <= 1
        decreases |unseen|
      {
        var lab :| lab in unseen;
        for d := 0 to |Days|
          invariant forall c: Cell :: DayIndex(c.day) < d ==> |grid[lab][c]| <= 1
        {
          for s := 0 to |Periods|
            invariant forall c: Cell :: (DayIndex(c.day) < d || (c.day == Days[d] && PeriodIndex(c.period) < s)) ==> |grid[lab][c]| <= 1
          {
            if |grid[lab][Cell(Days[d], Periods[s])]| > 1 {
              return false;
            }
          }
        }
        unseen := unseen - {lab};
      }
      return true;
    }

    /**
     * `_backtrack_assign`: tries every day, period, lab and qualified faculty
     * for session `index`, in that order, and recurses on each valid choice.
     * When every choice fails nothing is left behind; on success the sessions
     * from `index` on are placed, in order, each in one of the labs with a
     * qualified faculty, and the grid still keeps the hard constraints. A
     * raise can only come from a faculty name that is a list or dict.
     */
    method BacktrackAssign(sessions: seq<BatchAssignment>, labs: seq<Record>, faculties: seq<Record>,
                           fmap: map<Value, seq<Record>>, index: nat) returns (r: Outcome)
      requires index <= |sessions|
      requires Valid() && NoConflicts(grid)
      modifies this
      ensures year == old(year) && semester == old(semester) && Valid()
      ensures r == Exhausted ==> grid == old(grid) && assignments == old(assignments)
      ensures r == Raised ==> SomeFacultyUnhashable(faculties)
      ensures r == Placed ==> NoConflicts(grid)
      ensures r == Placed ==> |assignments| == |old(assignments)| + |sessions| - index
      ensures r == Placed ==> assignments[..|old(assignments)|] == old(assignments)
      ensures r == Placed ==> SessionsOf(assignments[|old(assignments)|..]) == sessions[index..]
      ensures r == Placed ==> AllQualified(assignments[|old(assignments)|..], fmap, year)
      ensures r == Placed ==> forall k :: |old(assignments)| <= k < |assignments| ==> assignments[k].lab in LabNames(labs)
      ensures r == Placed ==> grid == PlaceAll(old(grid), assignments[|old(assignments)|..])
      decreases |sessions| - index
    {
      if index == |sessions| {
        NoConflictsPassesFinalCheck(grid);
        var ok := ValidateFinalTimetable();
        assert assignments[|assignments|..] == [];
        return if ok then Placed else Exhausted;
      }
      for d := 0 to |Days|
        invariant grid == old(grid) && assignments == old(assignments)
        invariant year == old(year) && semester == old(semester)
      {
        for s := 0 to |Periods|
          invariant grid == old(grid) && assignments == old(assignments)
          invariant year == old(year) && semester == old(semester)
        {
          for l := 0 to |labs|
            invariant grid == old(grid) && assignments == old(assignments)
            invariant year == old(year) && semester == old(semester)
          {
            for f := 0 to |faculties|
              invariant grid == old(grid) && assignments == old(assignments)
              invariant year == old(year) && semester == old(semester)
            {
              r := TryPlacement(sessions, labs, faculties, fmap, index, Days[d], Periods[s], l, f);
              if r != Exhausted {
                return;
              }
            }
          }
        }
      }
      return Exhausted;
    }

    /**
     * The body of the innermost loop of `_backtrack_assign` for lab `l` and
     * faculty `f`: skip an unqualified faculty; otherwise, when the choice is
     * valid, make it, recurse, and undo it if the rest cannot be placed.
     */
    method TryPlacement(sessions: seq<BatchAssignment>, labs: seq<Record>, faculties: seq<Record>,
                        fmap: map<Value, seq<Record>>, index: nat, day: Day, period: Period, l: nat, f: nat)
      returns (r: Outcome)
      requires index < |sessions| && l < |labs| && f < |faculties|
      requires Valid() && NoConflicts(grid)
      modifies this
      ensures year == old(year) && semester == old(semester) && Valid()
      ensures r == Exhausted ==> grid == old(grid) && assignments == old(assignments)
      ensures r == Raised ==> SomeFacultyUnhashable(faculties)
      ensures r == Placed ==> NoConflicts(grid)
      ensures r == Placed ==> |assignments| == |old(assignments)| + |sessions| - index
      ensures r == Placed ==> assignments[..|old(assignments)|] == old(assignments)
      ensures r == Placed ==> SessionsOf(assignments[|old(assignments)|..]) == sessions[index..]
      ensures r == Placed ==> AllQualified(assignments[|old(assignments)|..], fmap, year)
      ensures r == Placed ==> forall k :: |old(assignments)| <= k < |assignments| ==> assignments[k].lab in LabNames(labs)
      ensures r == Placed ==> grid == PlaceAll(old(grid), assignments[|old(assignments)|..])
      decreases |sessions| - index, 0
    {
      var a := sessions[index];
      var lab := labs[l];
      var faculty := FacultyName(faculties[f]);
      var qualified := IsFacultyQualified(faculty, a.subjectFull, fmap);
      if qualified.None? {
        return Raised;
      }
      if !qualified.value {
        return Exhausted;
      }
      var valid := IsValidAssignment(a, day, period, lab, faculty);
      if !valid {
        return Exhausted;
      }
      var p := Placement(a, day, period, LabName(lab), faculty);
      PlaceKeepsNoConflicts(grid, p);
      MakeAssignment(a, day, period, lab, faculty);
      ghost var placed := assignments;
      r := BacktrackAssign(sessions, labs, faculties, fmap, index + 1);
      if r == Placed {
        var n := |old(assignments)|;
        assert placed == old(assignments) + [p];
        assert assignments[..n + 1] == placed;
        assert assignments[n] == p;
        assert assignments[n..] == [p] + assignments[n + 1..];
        assert assignments[n..][1..] == assignments[n + 1..];
        SessionsOfCons(p, assignments[n + 1..]);
        assert sessions[index..] == [a] + sessions[index + 1..];
        return Placed;
      }
      if r == Raised {
        return Raised;
      }
      UndoAssignment(a, day, period, lab);
      UnplaceAfterPlace(old(grid), p);
      assert (old(assignments) + [p])[..|old(assignments)|] == old(assignments);
      return Exhausted;
    }

    /**
     * `generate`: load, check, fan out, initialise and search; `None` when a
     * stage finds nothing to work with or the search fails.
     */
    method Generate(subjectsDoc: Option<Record>, labs: seq<Record>, faculties: seq<Record>,
                    workloads: seq<Record>, classDoc: Option<Record>) returns (r: Option<Timetable>)
      modifies this
      ensures LoadPracticals(subjectsDoc, year) == [] ==> r.None?
      ensures labs == [] || faculties == [] || FacultySubjects(workloads, faculties, year) == map[] ==> r.None?
      ensures InitialGrid(labs).None? ==> r.None?
      ensures Prepare(LoadPracticals(subjectsDoc, year), YearClasses(classDoc, year), year) in {None, Some([])} ==> r.None?
      ensures r.Some? ==>
        && r.value.year == year && r.value.semester == semester && r.value.labs == grid
        && grid.Keys == LabNames(labs) && WellFormed(grid) && NoConflicts(grid)
      ensures r.Some? ==>
        var sessions := Prepare(LoadPracticals(subjectsDoc, year), YearClasses(classDoc, year), year).value;
        && |old(assignments)| <= |assignments|
        && SessionsOf(assignments[|old(assignments)|..]) == sessions
        && AllQualified(assignments[|old(assignments)|..], FacultySubjects(workloads, faculties, year), year)
        && InitialGrid(labs).Some? && grid == PlaceAll(InitialGrid(labs).value, assignments[|old(assignments)|..])
        && forall k :: |old(assignments)| <= k < |assignments| ==> assignments[k].lab in grid
      ensures r.Some? ==> forall k :: |old(assignments)| <= k < |assignments| ==>
        grid[assignments[k].lab][Cell(assignments[k].day, assignments[k].period)] == [EntryOf(assignments[k])]
      ensures year == old(year) && semester == old(semester)
    {
      var practicals := LoadPracticals(subjectsDoc, year);
      if practicals == [] {
        return None;
      }
      var fmap := FacultySubjectsMapping(workloads, faculties);
      if labs == [] || faculties == [] || fmap == map[] {
        return None;
      }
      var prepared := PrepareBatchAssignments(practicals, classDoc);
      if prepared.None? {
        return None;   // the exception `generate` catches
      }
      var sessions := prepared.value;
      if sessions == [] {
        return None;
      }
      var raised := InitializeTimetable(labs);
      if raised {
        return None;   // the exception `generate` catches
      }
      EmptyHasNoConflicts(grid);
      ghost var start := grid;
      var outcome := BacktrackAssign(sessions, labs, faculties, fmap, 0);
      if outcome != Placed {
        return None;
      }
      EachPlacedAlone(start, assignments, |old(assignments)|);
      return Some(Timetable(year, semester, grid));
    }
  }

  /**
   * The module-level `generate(data)`: `None` unless both `year` and `sem`
   * are truthy; a year that is not a string makes loading raise, which also
   * ends in `None`.
   */
  method GenerateTimetable(data: Record, subjectsDoc: Option<Record>, labs: seq<Record>, faculties: seq<Record>,
                           workloads: seq<Record>, classDoc: Option<Record>) returns (r: Option<Timetable>)
    ensures !PyTruthy(PyGet(data, "year")) || !PyTruthy(PyGet(data, "sem")) ==> r.None?
    ensures r.Some? ==> PyGet(data, "year") == Str(r.value.year) && PyGet(data, "sem") == r.value.semester
    ensures r.Some? ==> WellFormed(r.value.labs) && NoConflicts(r.value.labs) && r.value.labs.Keys == LabNames(labs)
  {
    var year := PyGet(data, "year");
    var semester := PyGet(data, "sem");
    if !PyTruthy(year) || !PyTruthy(semester) {
      return None;
    }
    if !year.Str? {
      return None;
    }
    var generator := new TimetableGenerator(year.s, semester);
    r := generator.Generate(subjectsDoc, labs, faculties, workloads, classDoc);
  }
}
