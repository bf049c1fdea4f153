/** The weekly class timetable on the events page: a nested
    day -> time slot -> cell map, the single-cell notes update, the
    break/empty classification of cells, and the edit/save workflow of the
    notes dialog. */
module Timetable {
  import opened Wrappers

  /** A slot of the grid. A field the source leaves undefined (a cell
      created by a notes update on a missing slot) is "" here; both are
      falsy and render the same. */
  datatype Cell = Cell(subject: string, room: string, notes: string)

  datatype Timetable = Timetable(
    name: string,
    timeSlots: seq<string>,
    days: seq<string>,
    schedule: map<string, map<string, Cell>>)

  /** The cell a notes dialog is open for. */
  datatype CellRef = CellRef(day: string, time: string)

  /** Every rendered cell (a listed day crossed with a listed slot) exists. */
  predicate WellFormed(tt: Timetable)
  {
    forall day, time :: day in tt.days && time in tt.timeSlots ==>
      day in tt.schedule && time in tt.schedule[day]
  }

  predicate OnGrid(tt: Timetable, ref: CellRef)
  {
    ref.day in tt.days && ref.time in tt.timeSlots
  }

  function CellAt(tt: Timetable, day: string, time: string): (r: Option<Cell>)
    ensures r.Some? <==> day in tt.schedule && time in tt.schedule[day]
  {
    if day in tt.schedule && time in tt.schedule[day] then Some(tt.schedule[day][time]) else None
  }

  /** `updateTimetableNotes`: the notes of one cell replaced, and nothing
      else. An unknown day makes the source read a property of undefined,
      a TypeError: None. An unknown slot of a known day is created with
      only its notes set. */
  function UpdateNotes(tt: Timetable, day: string, time: string, notes: string): (r: Option<Timetable>)
    ensures r.None? <==> day !in tt.schedule
    ensures r.Some? ==>
              var t := r.value;
              && t.name == tt.name && t.timeSlots == tt.timeSlots && t.days == tt.days
              && t.schedule.Keys == tt.schedule.Keys
              && (forall d :: d in tt.schedule && d != day ==> t.schedule[d] == tt.schedule[d])
              && t.schedule[day].Keys == tt.schedule[day].Keys + {time}
              && (forall s :: s in tt.schedule[day] && s != time ==> t.schedule[day][s] == tt.schedule[day][s])
              && t.schedule[day][time] == CellAt(tt, day, time).GetOr(Cell("", "", "")).(notes := notes)
  {
    if day !in tt.schedule then None
    else
      var row := tt.schedule[day];
      var old_ := if time in row then row[time] else Cell("", "", "");
      Some(tt.(schedule := tt.schedule[day := row[time := old_.(notes := notes)]]))
  }

  /** Writing back the notes a cell already has leaves the timetable equal. */
  lemma UpdateSameNotes(tt: Timetable, day: string, time: string)
    requires CellAt(tt, day, time).Some?
    ensures UpdateNotes(tt, day, time, CellAt(tt, day, time).value.notes) == Some(tt)
  {
    var row := tt.schedule[day];
    assert row[time := row[time].(notes := row[time].notes)] == row;
    assert tt.schedule[day := row] == tt.schedule;
  }

  /** A later update of the same cell overrides an earlier one. */
  lemma UpdateTwice(tt: Timetable, day: string, time: string, first: string, second: string)
    requires day in tt.schedule
    ensures UpdateNotes(UpdateNotes(tt, day, time, first).value, day, time, second)
         == UpdateNotes(tt, day, time, second)
  {
    var a := UpdateNotes(tt, day, time, first).value;
    var b := UpdateNotes(a, day, time, second).value;
    var c := UpdateNotes(tt, day, time, second).value;
    assert b.schedule[day] == c.schedule[day];
    assert b.schedule == c.schedule;
  }

  /** An update keeps every rendered cell in place. */
  lemma UpdateKeepsWellFormed(tt: Timetable, day: string, time: string, notes: string)
    requires WellFormed(tt) && day in tt.schedule
    ensures WellFormed(UpdateNotes(tt, day, time, notes).value)
  {
  }

  /** `isBreak`. */
  predicate IsBreak(cell: Cell)
  {
    cell.subject == "Lunch Break"
  }

  /** `isEmpty`: no subject, or a break. */
  predicate IsEmptyCell(cell: Cell)
  {
    cell.subject == "" || IsBreak(cell)
  }

  /** The "Click to add notes" hint: a class without notes. */
  predicate ShowsHint(cell: Cell)
  {
    !IsEmptyCell(cell) && !IsBreak(cell) && cell.notes == ""
  }

  /** A break always counts as empty and never shows the hint; the hint
      appears exactly on cells with a subject other than the break and no
      notes. */
  lemma Classification(cell: Cell)
    ensures IsBreak(cell) ==> IsEmptyCell(cell) && !ShowsHint(cell)
    ensures ShowsHint(cell) <==> cell.subject != "" && cell.subject != "Lunch Break" && cell.notes == ""
  {
  }

  /** The grid and its notes dialog. */
  class TimetableEditor {
    var timetable: Timetable
    var editingCell: Option<CellRef>
    var cellNotes: string

    /** The grid renders, and an open dialog is for a rendered cell. */
    ghost predicate Valid()
      reads this
    {
      WellFormed(timetable)
      && (editingCell.Some? ==> OnGrid(timetable, editingCell.value))
    }

    constructor (tt: Timetable)
      requires WellFormed(tt)
      ensures Valid()
      ensures timetable == tt && editingCell == None && cellNotes == ""
    {
      timetable, editingCell, cellNotes := tt, None, "";
    }

    /** `handleEditCell`: open the dialog on a cell with its current notes. */
    method EditCell(day: string, time: string)
      requires Valid() && day in timetable.days && time in timetable.timeSlots
      modifies this
      ensures Valid()
      ensures timetable == old(timetable)
      ensures editingCell == Some(CellRef(day, time))
      ensures cellNotes == timetable.schedule[day][time].notes
    {
      editingCell := Some(CellRef(day, time));
      cellNotes := timetable.schedule[day][time].notes;
    }

    /** A click on a rendered cell: breaks are not editable. */
    method ClickCell(day: string, time: string)
      requires Valid() && day in timetable.days && time in timetable.timeSlots
      modifies this
      ensures Valid()
      ensures timetable == old(timetable)
      ensures IsBreak(timetable.schedule[day][time]) ==>
                editingCell == old(editingCell) && cellNotes == old(cellNotes)
      ensures !IsBreak(timetable.schedule[day][time]) ==>
                editingCell == Some(CellRef(day, time)) && cellNotes == timetable.schedule[day][time].notes
    {
      if !IsBreak(timetable.schedule[day][time]) {
        EditCell(day, time);
      }
    }

    /** Typing in the dialog. */
    method TypeNotes(text: string)
      requires Valid()
      modifies this
      ensures Valid()
      ensures cellNotes == text && timetable == old(timetable) && editingCell == old(editingCell)
    {
      cellNotes := text;
    }

    /** `handleSaveNotes`: with a dialog open, its text becomes the cell's
        notes and the dialog closes and clears; without one nothing happens. */
    method SaveNotes()
      requires Valid()
      modifies this
      ensures Valid()
      ensures old(editingCell).None? ==>
                timetable == old(timetable) && editingCell == None && cellNotes == old(cellNotes)
      ensures old(editingCell).Some? ==>
                && Some(timetable) == UpdateNotes(old(timetable), old(editingCell).value.day,
                                                  old(editingCell).value.time, old(cellNotes))
                && editingCell == None && cellNotes == ""
    {
      if editingCell.Some? {
        var ref := editingCell.value;
        UpdateKeepsWellFormed(timetable, ref.day, ref.time, cellNotes);
        timetable := UpdateNotes(timetable, ref.day, ref.time, cellNotes).value;
        editingCell := None;
        cellNotes := "";
      }
    }

    /** Closing the dialog without saving; the typed text is kept. */
    method CancelEdit()
      requires Valid()
      modifies this
      ensures Valid()
      ensures editingCell == None && timetable == old(timetable) && cellNotes == old(cellNotes)
    {
      editingCell := None;
    }

    /** Opening a cell and saving without typing leaves the timetable as it was. */
    method EditAndSave(day: string, time: string)
      requires Valid() && day in timetable.days && time in timetable.timeSlots
      modifies this
      ensures Valid()
      ensures timetable == old(timetable) && editingCell == None && cellNotes == ""
    {
      EditCell(day, time);
      UpdateSameNotes(timetable, day, time);
      SaveNotes();
    }
  }
}
