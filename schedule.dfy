/**
 * The practical-lab grid of the timetable generator
 * (Backend/modules/timetable_generator.py): for every lab, five week days of
 * three practical periods, each holding the slot entries placed there, and
 * the three hard constraints the search keeps.
 */
module Schedule {
  import opened Values

  datatype Day = Monday | Tuesday | Wednesday | Thursday | Friday

  /** The three practical periods, starting at 11:15, 14:15 and 16:20. */
  datatype Period = Morning | Afternoon | Evening

  const Days: seq<Day> := [Monday, Tuesday, Wednesday, Thursday, Friday]
  const Periods: seq<Period> := [Morning, Afternoon, Evening]

  /** The position of a day in `DAYS`. */
  function DayIndex(d: Day): (i: nat)
    ensures i < |Days| && Days[i] == d
  {
    match d
    case Monday => 0
    case Tuesday => 1
    case Wednesday => 2
    case Thursday => 3
    case Friday => 4
  }

  /** The position of a period in `SLOTS`. */
  function PeriodIndex(p: Period): (i: nat)
    ensures i < |Periods| && Periods[i] == p
  {
    match p
    case Morning => 0
    case Afternoon => 1
    case Evening => 2
  }

  function PeriodLabel(p: Period): string
  {
    match p
    case Morning => "11:15"
    case Afternoon => "14:15"
    case Evening => "16:20"
  }

  datatype Cell = Cell(day: Day, period: Period)

  /** One batch's one-hour practical, as `_prepare_batch_assignments` emits it. */
  datatype BatchAssignment = BatchAssignment(
    subject: Value, subjectFull: Value, className: string, division: Value, batch: int, hours: int)

  /** What a lab slot holds once a batch is placed in it. */
  datatype Entry = Entry(
    className: string, division: Value, batch: int, subject: Value, subjectFull: Value, faculty: Value)

  /** One decision of the search, as `self.assignments` records it. */
  datatype Placement = Placement(assignment: BatchAssignment, day: Day, period: Period, lab: Value, faculty: Value)

  type Schedule = map<Cell, seq<Entry>>

  /** `timetable['labs']`: lab name to that lab's week. */
  type Grid = map<Value, Schedule>

  /** `lab.get('name', 'Unknown Lab')`. */
  function LabName(lab: Record): (n: Value)
    ensures "name" in lab ==> n == lab["name"]
    ensures "name" !in lab ==> n == Str("Unknown Lab")
  {
    if "name" in lab then lab["name"] else Str("Unknown Lab")
  }

  /** `faculty.get('name', '')`. */
  function FacultyName(faculty: Record): (n: Value)
    ensures "name" in faculty ==> n == faculty["name"]
    ensures "name" !in faculty ==> n == Str("")
  {
    if "name" in faculty then faculty["name"] else Str("")
  }

  /** Every lab of the grid has a list for each of the fifteen cells. */
  ghost predicate WellFormed(g: Grid)
  {
    forall lab, c: Cell :: lab in g ==> c in g[lab]
  }

  /** The names of a list of labs. */
  function LabNames(labs: seq<Record>): (names: set<Value>)
    ensures forall i :: 0 <= i < |labs| ==> LabName(labs[i]) in names
    ensures forall n :: n in names ==> exists i :: 0 <= i < |labs| && LabName(labs[i]) == n
  {
    set i | 0 <= i < |labs| :: LabName(labs[i])
  }

  /** The fifteen cells of a week. */
  function AllCells(): (cells: set<Cell>)
    ensures forall c: Cell :: c in cells
  {
    var cells := set d, p | d in Days && p in Periods :: Cell(d, p);
    forall c: Cell
      ensures c in cells
    {
      assert c.day in Days by { assert c.day == Days[DayIndex(c.day)]; }
      assert c.period in Periods by { assert c.period == Periods[PeriodIndex(c.period)]; }
    }
    cells
  }

  /** A lab's week with nothing placed, as `_initialize_timetable` builds it. */
  function EmptyWeek(): (w: Schedule)
    ensures forall c: Cell :: c in w && w[c] == []
  {
    map c | c in AllCells() :: []
  }

  function EntryOf(p: Placement): Entry
  {
    Entry(p.assignment.className, p.assignment.division, p.assignment.batch,
          p.assignment.subject, p.assignment.subjectFull, p.faculty)
  }

  /** The grid after `_make_assignment`: the entry is appended to the lab's cell, when the lab is in the grid. */
  function Place(g: Grid, p: Placement): (r: Grid)
    requires WellFormed(g)
    ensures WellFormed(r) && r.Keys == g.Keys
  {
    var c := Cell(p.day, p.period);
    if p.lab in g then g[p.lab := g[p.lab][c := g[p.lab][c] + [EntryOf(p)]]] else g
  }

  /** The grid after `_undo_assignment`: the last entry of the lab's cell is dropped, when there is one. */
  function Unplace(g: Grid, lab: Value, c: Cell): (r: Grid)
    requires WellFormed(g)
    ensures WellFormed(r) && r.Keys == g.Keys
  {
    if lab in g && g[lab][c] != [] then g[lab := g[lab][c := g[lab][c][..|g[lab][c]| - 1]]] else g
  }

  /** Undoing a placement right after making it gives back the grid it was made on, whatever the grid held. */
  lemma UnplaceAfterPlace(g: Grid, p: Placement)
    requires WellFormed(g)
    ensures Unplace(Place(g, p), p.lab, Cell(p.day, p.period)) == g
  {
    var c := Cell(p.day, p.period);
    if p.lab in g {
      var h := Place(g, p);
      assert h[p.lab][c] == g[p.lab][c] + [EntryOf(p)];
      assert h[p.lab][c][..|h[p.lab][c]| - 1] == g[p.lab][c];
      assert h[p.lab][c := g[p.lab][c]] == g[p.lab];
    }
  }

  /** The placements applied in order. */
  function PlaceAll(g: Grid, ps: seq<Placement>): (r: Grid)
    requires WellFormed(g)
    ensures WellFormed(r) && r.Keys == g.Keys
    decreases |ps|
  {
    if ps == [] then g else PlaceAll(Place(g, ps[0]), ps[1..])
  }

  /** Placements only append: an entry a cell holds is still there after more placements. */
  lemma {:induction false} PlaceAllKeeps(g: Grid, ps: seq<Placement>, lab: Value, c: Cell, e: Entry)
    requires WellFormed(g) && lab in g && e in g[lab][c]
    ensures e in PlaceAll(g, ps)[lab][c]
    decreases |ps|
  {
    if ps != [] {
      var h := Place(g, ps[0]);
      assert e in h[lab][c];
      PlaceAllKeeps(h, ps[1..], lab, c, e);
    }
  }

  /** A placement whose lab is in the grid leaves its entry in that lab's cell. */
  lemma {:induction false} PlaceAllHolds(g: Grid, ps: seq<Placement>, k: nat)
    requires WellFormed(g) && k < |ps| && ps[k].lab in g
    ensures EntryOf(ps[k]) in PlaceAll(g, ps)[ps[k].lab][Cell(ps[k].day, ps[k].period)]
    decreases k
  {
    var h := Place(g, ps[0]);
    if k == 0 {
      var c := Cell(ps[0].day, ps[0].period);
      assert h[ps[0].lab][c] == g[ps[0].lab][c] + [EntryOf(ps[0])];
      PlaceAllKeeps(h, ps[1..], ps[0].lab, c, EntryOf(ps[0]));
    } else {
      assert ps[1..][k - 1] == ps[k];
      PlaceAllHolds(h, ps[1..], k - 1);
    }
  }

  /**
   * On a grid that passes the final check, every placement whose lab is in
   * the grid is the one entry of its lab's cell.
   */
  lemma PlacedAlone(g: Grid, ps: seq<Placement>, k: nat)
    requires WellFormed(g) && k < |ps| && ps[k].lab in g
    requires AtMostOnePerCell(PlaceAll(g, ps))
    ensures PlaceAll(g, ps)[ps[k].lab][Cell(ps[k].day, ps[k].period)] == [EntryOf(ps[k])]
  {
    PlaceAllHolds(g, ps, k);
  }

  /** `existing` belongs to the batch of `a`: same class, division and batch number. */
  predicate SameBatch(e: Entry, a: BatchAssignment)
  {
    e.className == a.className && e.division == a.division && e.batch == a.batch
  }

  /** C1 (`_has_batch_conflict`): some lab already holds this batch in this cell. */
  predicate BatchBusy(g: Grid, a: BatchAssignment, c: Cell)
    requires WellFormed(g)
  {
    exists lab, i :: lab in g && 0 <= i < |g[lab][c]| && SameBatch(g[lab][c][i], a)
  }

  /** C2 (`_has_lab_conflict`): the lab is in the grid and its cell is taken. */
  predicate LabBusy(g: Grid, lab: Value, c: Cell)
    requires WellFormed(g)
  {
    lab in g && |g[lab][c]| > 0
  }

  /** C3 (`_has_faculty_conflict`): some lab already has this faculty in this cell. */
  predicate FacultyBusy(g: Grid, faculty: Value, c: Cell)
    requires WellFormed(g)
  {
    exists lab, i :: lab in g && 0 <= i < |g[lab][c]| && g[lab][c][i].faculty == faculty
  }

  /** `_is_valid_assignment`: none of the three conflicts. */
  predicate Free(g: Grid, a: BatchAssignment, c: Cell, lab: Value, faculty: Value)
    requires WellFormed(g)
  {
    !BatchBusy(g, a, c) && !LabBusy(g, lab, c) && !FacultyBusy(g, faculty, c)
  }

  /** What `_validate_final_timetable` checks: no lab cell holds two entries. */
  ghost predicate AtMostOnePerCell(g: Grid)
    requires WellFormed(g)
  {
    forall lab, c: Cell :: lab in g ==> |g[lab][c]| <= 1
  }

  function BatchKey(e: Entry): (string, Value, int)
  {
    (e.className, e.division, e.batch)
  }

  /** Two entries of one cell clash when they share a batch or a faculty. */
  predicate Clash(a: Entry, b: Entry)
  {
    BatchKey(a) == BatchKey(b) || a.faculty == b.faculty
  }

  /** Entries in the same cell of two different labs do not clash. */
  ghost predicate LabsApart(g: Grid)
    requires WellFormed(g)
  {
    forall l1, l2, c: Cell :: l1 in g && l2 in g && l1 != l2 && g[l1][c] != [] && g[l2][c] != [] ==>
      !Clash(g[l1][c][0], g[l2][c][0])
  }

  /**
   * The hard constraints: every lab cell holds at most one entry, and two
   * entries in the same cell of different labs belong to different batches
   * and different faculty.
   */
  ghost predicate NoConflicts(g: Grid)
    requires WellFormed(g)
  {
    AtMostOnePerCell(g) && LabsApart(g)
  }

  /** `_initialize_timetable`'s grid keeps the constraints: nothing is placed yet. */
  lemma EmptyHasNoConflicts(g: Grid)
    requires WellFormed(g)
    requires forall lab, c: Cell :: lab in g ==> g[lab][c] == []
    ensures NoConflicts(g)
  {
  }

  /**
   * Placing an entry where `_is_valid_assignment` allows it keeps the hard
   * constraints: this is why the search never builds a conflicting grid.
   */
  lemma PlaceKeepsNoConflicts(g: Grid, p: Placement)
    requires WellFormed(g) && NoConflicts(g)
    requires Free(g, p.assignment, Cell(p.day, p.period), p.lab, p.faculty)
    ensures NoConflicts(Place(g, p))
  {
    PlaceKeepsOnePerCell(g, p);
    PlaceKeepsLabsApart(g, p);
  }

  /** A free cell receives its first entry, so no cell gets a second one. */
  lemma PlaceKeepsOnePerCell(g: Grid, p: Placement)
    requires WellFormed(g) && AtMostOnePerCell(g)
    requires !LabBusy(g, p.lab, Cell(p.day, p.period))
    ensures AtMostOnePerCell(Place(g, p))
  {
    var c := Cell(p.day, p.period);
    var h: Grid := Place(g, p);
    forall lab, d: Cell | lab in h
      ensures |h[lab][d]| <= 1
    {
      if lab == p.lab && d == c {
        assert h[lab][d] == [EntryOf(p)];
      } else {
        assert h[lab][d] == g[lab][d];
      }
    }
  }

  /** No batch or faculty conflict arises in the cell that receives the entry. */
  lemma PlaceKeepsLabsApart(g: Grid, p: Placement)
    requires WellFormed(g) && LabsApart(g)
    requires Free(g, p.assignment, Cell(p.day, p.period), p.lab, p.faculty)
    ensures LabsApart(Place(g, p))
  {
    var c := Cell(p.day, p.period);
    var h: Grid := Place(g, p);
    if p.lab in g {
      assert g[p.lab][c] == [];
      assert h[p.lab][c] == [EntryOf(p)];
      forall l1: Value, l2: Value, d: Cell | l1 in h && l2 in h && l1 != l2 && h[l1][d] != [] && h[l2][d] != []
        ensures !Clash(h[l1][d][0], h[l2][d][0])
      {
        if d == c && l1 == p.lab {
          FreeCellApart(g, p, l2);
        } else if d == c && l2 == p.lab {
          FreeCellApart(g, p, l1);
        } else {
          assert h[l1][d] == g[l1][d] && h[l2][d] == g[l2][d];
        }
      }
    }
  }

  /** An entry placed in a free cell does not clash with what another lab holds in that cell. */
  lemma FreeCellApart(g: Grid, p: Placement, other: Value)
    requires WellFormed(g)
    requires Free(g, p.assignment, Cell(p.day, p.period), p.lab, p.faculty)
    requires p.lab in g && other in g && other != p.lab && g[other][Cell(p.day, p.period)] != []
    ensures Place(g, p)[other][Cell(p.day, p.period)] == g[other][Cell(p.day, p.period)]
    ensures !Clash(EntryOf(p), g[other][Cell(p.day, p.period)][0])
    ensures !Clash(g[other][Cell(p.day, p.period)][0], EntryOf(p))
  {
    var c := Cell(p.day, p.period);
    assert !SameBatch(g[other][c][0], p.assignment);
    assert g[other][c][0].faculty != p.faculty;
  }

  /** So the final check of the search cannot fail on a grid that keeps the constraints. */
  lemma NoConflictsPassesFinalCheck(g: Grid)
    requires WellFormed(g) && NoConflicts(g)
    ensures AtMostOnePerCell(g)
  {
  }
}
