/** The table of applications and the three mutations the tracker applies to
    it: add, edit and delete. Row labels are positions: every way the script
    builds the table (reading the file, `concat` with `ignore_index`, `drop`
    followed by `reset_index`) numbers the rows 0 .. n-1. */
module Tables {
  import opened Wrappers
  import opened Schema

  /** The table of applications, in row order. */
  type Table = seq<Record>

  /** The persisted file: None while it does not exist yet, otherwise the table
      it holds. */
  type Stored = Option<Table>

  /** Reading the file; a missing file starts an empty table with the schema's
      columns. */
  function Load(file: Stored): (t: Table)
    ensures file.None? ==> t == []
    ensures file.Some? ==> t == file.value
  {
    match file
    case None => []
    case Some(rows) => rows
  }

  /** Rewriting the file with the whole table. */
  function Save(t: Table): (file: Stored)
    ensures Load(file) == t
  {
    Some(t)
  }

  /** What the "Add New Application" form collects. The date widgets always
      yield a day (today when untouched), and the status comes from the select
      box, so it is one of the five. */
  datatype Form = Form(
    dateApplied: Date,
    company: string,
    positionTitle: string,
    jobLink: string,
    location: string,
    followUp: Date,
    interview: Date,
    contactPerson: string,
    status: Status,
    notes: string)

  /** The record built from a submitted add form: each form value lands in
      the column of the same name. */
  function NewEntry(form: Form): (r: Record)
    ensures Known(r)
    ensures ParseStatus(r.status) == Some(form.status)
    ensures r.dateApplied == form.dateApplied
    ensures r.company == form.company
    ensures r.positionTitle == form.positionTitle
    ensures r.jobLink == form.jobLink
    ensures r.location == form.location
    ensures r.status == Label(form.status)
    ensures r.followUp == Some(form.followUp)
    ensures r.interview == Some(form.interview)
    ensures r.contactPerson == form.contactPerson
    ensures r.notes == form.notes
  {
    var status := Label(form.status);
    ParseLabel(form.status);
    Record(form.dateApplied, form.company, form.positionTitle, form.jobLink,
           form.location, status, Some(form.followUp),
           Some(form.interview), form.contactPerson, form.notes)
  }

  /** Appending a record as the new last row. */
  function Add(t: Table, r: Record): (t': Table)
    ensures |t'| == |t| + 1
    ensures t'[|t|] == r
    ensures forall j :: 0 <= j < |t| ==> t'[j] == t[j]
  {
    t + [r]
  }

  /** What the "Save Changes" edit form writes back. */
  datatype Patch = Patch(status: Status, followUp: Date, interview: Date, notes: string)

  /** The four columns the edit form overwrites. */
  const EditedFields: set<Field> := {ApplicationStatus, FollowUpDate, InterviewDate, Notes}

  /** One row after the edit form's four cell assignments. */
  function Patched(r: Record, p: Patch): (r': Record)
    ensures Get(r', ApplicationStatus) == TextCell(Label(p.status))
    ensures Get(r', FollowUpDate) == DateCell(Some(p.followUp))
    ensures Get(r', InterviewDate) == DateCell(Some(p.interview))
    ensures Get(r', Notes) == TextCell(p.notes)
    ensures forall f :: f !in EditedFields ==> Get(r', f) == Get(r, f)
  {
    r.(status := Label(p.status), followUp := Some(p.followUp),
       interview := Some(p.interview), notes := p.notes)
  }

  /** Saving the edit form for the row at index `i`. Looking the row up with
      `loc` raises KeyError when the table has no such row, and pre-selecting
      its status raises ValueError when the status cell is not one of the five
      labels; the form is never saved then. */
  function Update(t: Table, i: nat, p: Patch): (res: Result<Table, Error>)
    ensures res.Success? <==> i < |t| && Known(t[i])
    ensures i >= |t| ==> res == Failure(KeyError(i))
    ensures i < |t| && !Known(t[i]) ==> res == Failure(ValueError(t[i].status))
    ensures res.Success? ==> |res.value| == |t|
    ensures res.Success? ==> res.value[i] == Patched(t[i], p)
    ensures res.Success? ==> forall j :: 0 <= j < |t| && j != i ==> res.value[j] == t[j]
  {
    if i >= |t| then Failure(KeyError(i))
    else match EditFormStatus(t[i])
      case Failure(e) => Failure(e)
      case Success(_) => Success(t[i := Patched(t[i], p)])
  }

  /** Deleting the row at index `i`: the removed record is reported and the
      later rows move down by one. Looking the row up raises KeyError when the
      table has no such row. */
  function Delete(t: Table, i: nat): (res: Result<(Table, Record), Error>)
    ensures res.Success? <==> i < |t|
    ensures res.Failure? ==> res.error == KeyError(i)
    ensures res.Success? ==> res.value.1 == t[i]
    ensures res.Success? ==> |res.value.0| == |t| - 1
    ensures res.Success? ==> forall j :: 0 <= j < i ==> res.value.0[j] == t[j]
    ensures res.Success? ==> forall j :: i <= j < |t| - 1 ==> res.value.0[j] == t[j + 1]
  {
    if i < |t| then Success((t[..i] + t[i + 1..], t[i])) else Failure(KeyError(i))
  }

  /** Putting the deleted record back at its index restores the table. */
  lemma DeleteUndo(t: Table, i: nat)
    requires i < |t|
    ensures var (rest, gone) := Delete(t, i).value; rest[..i] + [gone] + rest[i..] == t
  {
  }

  /** Adding a record and then deleting the last row gives back the original
      table and the added record. */
  lemma AddThenDeleteLast(t: Table, r: Record)
    ensures Delete(Add(t, r), |t|) == Success((t, r))
  {
    var u := Add(t, r);
    assert u[..|t|] == t;
    assert u[..|t|] + u[|t| + 1..] == t;
  }

  /** Deleting the last row and adding the removed record back restores the table. */
  lemma DeleteLastThenAdd(t: Table)
    requires |t| > 0
    ensures var (rest, gone) := Delete(t, |t| - 1).value; Add(rest, gone) == t
  {
  }

  /** Two edits of the same row: the later one wins outright. */
  lemma UpdateTwice(t: Table, i: nat, p: Patch, q: Patch)
    requires i < |t|
    ensures Update(t, i, p).Success? ==> Update(Update(t, i, p).value, i, q) == Update(t, i, q)
  {
    if Update(t, i, p).Failure? {
      return;
    }
    ParseLabel(p.status);
    var once := Update(t, i, q).value;
    var twice := Update(Update(t, i, p).value, i, q).value;
    assert Patched(Patched(t[i], p), q) == Patched(t[i], q);
    assert twice == once;
  }

  /** Edits of different rows do not interfere, so their order does not matter. */
  lemma UpdatesCommute(t: Table, i: nat, j: nat, p: Patch, q: Patch)
    requires i < |t| && j < |t| && i != j
    ensures Update(t, i, p).Success? && Update(t, j, q).Success? ==>
              Update(Update(t, i, p).value, j, q) == Update(Update(t, j, q).value, i, p)
  {
    if Update(t, i, p).Failure? || Update(t, j, q).Failure? {
      return;
    }
    var a := Update(Update(t, i, p).value, j, q).value;
    var b := Update(Update(t, j, q).value, i, p).value;
    assert |a| == |b|;
    forall k | 0 <= k < |a|
      ensures a[k] == b[k]
    {
    }
    assert a == b;
  }

  /** Every row's status is one of the five labels. */
  predicate WellFormed(t: Table)
  {
    forall j :: 0 <= j < |t| ==> Known(t[j])
  }

  lemma AddPreservesWellFormed(t: Table, r: Record)
    requires WellFormed(t) && Known(r)
    ensures WellFormed(Add(t, r))
  {
  }

  lemma UpdatePreservesWellFormed(t: Table, i: nat, p: Patch)
    requires WellFormed(t) && i < |t|
    ensures Update(t, i, p).Success?
    ensures WellFormed(Update(t, i, p).value)
  {
  }

  lemma DeletePreservesWellFormed(t: Table, i: nat)
    requires WellFormed(t) && i < |t|
    ensures WellFormed(Delete(t, i).value.0)
  {
  }

  /** The edit form pre-selects the row's status by looking its cell up in the
      choice list with `list.index`, which raises ValueError for any other text. */
  function EditFormStatus(r: Record): (res: Result<Status, Error>)
    ensures res.Success? <==> Known(r)
    ensures res.Success? ==> Label(res.value) == r.status
    ensures res.Failure? ==> res.error == ValueError(r.status)
  {
    match ParseStatus(r.status)
    case None => Failure(ValueError(r.status))
    case Some(s) => Success(s)
  }

  /** Saving the edit form without touching the status keeps the row's status. */
  lemma EditKeepsStatus(t: Table, i: nat, p: Patch)
    requires i < |t| && Known(t[i])
    requires p.status == EditFormStatus(t[i]).value
    ensures Update(t, i, p).value[i].status == t[i].status
  {
  }
}
