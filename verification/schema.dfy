/** The fixed ten-column schema of a job-application record, and the five
    application statuses offered by the status select box (job_tracker.py). */
module Schema {
  import opened Wrappers

  /** A calendar day as the date widgets hand it over; parsing and formatting
      are not modelled. */
  datatype Date = Date(year: int, month: int, day: int)

  /** The errors the record manager can raise: pandas' KeyError for a row label
      the table does not hold, and Python's ValueError from `list.index`. */
  datatype Error = KeyError(index: nat) | ValueError(cell: string)

  /** The five choices of the "Application Status" select box. */
  datatype Status = Submitted | InterviewScheduled | Rejected | Offer | Other

  /** The select box's choice list, in the order it is written in the script. */
  const StatusLabels: seq<string> :=
    ["Submitted", "Interview Scheduled", "Rejected", "Offer", "Other"]

  /** Position of a status in the choice list. */
  function Ordinal(s: Status): (k: nat)
    ensures k < |StatusLabels|
  {
    match s
    case Submitted => 0
    case InterviewScheduled => 1
    case Rejected => 2
    case Offer => 3
    case Other => 4
  }

  /** The status stored at a position of the choice list. */
  function StatusAt(k: nat): Status
    requires k < |StatusLabels|
  {
    if k == 0 then Submitted
    else if k == 1 then InterviewScheduled
    else if k == 2 then Rejected
    else if k == 3 then Offer
    else Other
  }

  /** The text written into the "Application Status" cell for a status. */
  function Label(s: Status): string
  {
    StatusLabels[Ordinal(s)]
  }

  /** Python's `list.index`: the first position holding `x`, or None where the
      call raises ValueError. */
  function IndexOf<T(==)>(xs: seq<T>, x: T): (r: Option<nat>)
    ensures r.None? <==> x !in xs
    ensures r.Some? ==> r.value < |xs| && xs[r.value] == x
    ensures r.Some? ==> forall j :: 0 <= j < r.value ==> xs[j] != x
  {
    if |xs| == 0 then None
    else if xs[0] == x then Some(0)
    else match IndexOf(xs[1..], x)
      case None => None
      case Some(k) => Some(k + 1)
  }

  /** Reads a stored status cell back as one of the five statuses, if it is one. */
  function ParseStatus(cell: string): (r: Option<Status>)
    ensures r.Some? <==> cell in StatusLabels
    ensures r.Some? ==> Label(r.value) == cell
  {
    match IndexOf(StatusLabels, cell)
    case None => None
    case Some(k) => Some(StatusAt(k))
  }

  /** Every status survives being written as its label and read back. */
  lemma ParseLabel(s: Status)
    ensures ParseStatus(Label(s)) == Some(s)
  {
  }

  /** Different statuses are written as different labels. */
  lemma LabelInjective(s: Status, u: Status)
    ensures Label(s) == Label(u) <==> s == u
  {
  }

  /** One application: the ten columns of the table, in schema order. The
      status column holds whatever text the file holds; the two optional dates
      are None where the cell is empty. */
  datatype Record = Record(
    dateApplied: Date,
    company: string,
    positionTitle: string,
    jobLink: string,
    location: string,
    status: string,
    followUp: Option<Date>,
    interview: Option<Date>,
    contactPerson: string,
    notes: string)

  /** The ten schema columns. */
  datatype Field =
    | DateApplied | Company | PositionTitle | JobLink | Location
    | ApplicationStatus | FollowUpDate | InterviewDate | ContactPerson | Notes

  /** The column order of the table and of the file. */
  const Columns: seq<Field> :=
    [DateApplied, Company, PositionTitle, JobLink, Location,
     ApplicationStatus, FollowUpDate, InterviewDate, ContactPerson, Notes]

  /** The header text of a column. */
  function ColumnName(f: Field): string
  {
    match f
    case DateApplied => "Date Applied"
    case Company => "Company"
    case PositionTitle => "Position Title"
    case JobLink => "Job Link"
    case Location => "Location"
    case ApplicationStatus => "Application Status"
    case FollowUpDate => "Follow-Up Date"
    case InterviewDate => "Interview Date"
    case ContactPerson => "Contact Person"
    case Notes => "Notes"
  }

  /** The content of one cell. */
  datatype Cell = TextCell(text: string) | DateCell(date: Option<Date>)

  /** The cell of record `r` in column `f`. */
  function Get(r: Record, f: Field): Cell
  {
    match f
    case DateApplied => DateCell(Some(r.dateApplied))
    case Company => TextCell(r.company)
    case PositionTitle => TextCell(r.positionTitle)
    case JobLink => TextCell(r.jobLink)
    case Location => TextCell(r.location)
    case ApplicationStatus => TextCell(r.status)
    case FollowUpDate => DateCell(r.followUp)
    case InterviewDate => DateCell(r.interview)
    case ContactPerson => TextCell(r.contactPerson)
    case Notes => TextCell(r.notes)
  }

  /** The schema lists every column exactly once, under distinct header names. */
  lemma SchemaColumns()
    ensures |Columns| == 10
    ensures forall f :: f in Columns
    ensures forall i, j :: 0 <= i < j < |Columns| ==> ColumnName(Columns[i]) != ColumnName(Columns[j])
  {
    forall f
      ensures f in Columns
    {
      match f
      case DateApplied => assert Columns[0] == f;
      case Company => assert Columns[1] == f;
      case PositionTitle => assert Columns[2] == f;
      case JobLink => assert Columns[3] == f;
      case Location => assert Columns[4] == f;
      case ApplicationStatus => assert Columns[5] == f;
      case FollowUpDate => assert Columns[6] == f;
      case InterviewDate => assert Columns[7] == f;
      case ContactPerson => assert Columns[8] == f;
      case Notes => assert Columns[9] == f;
    }
  }

  /** A record is determined by its ten cells: two records that agree in every
      column are the same record. */
  lemma CellsDetermineRecord(a: Record, b: Record)
    requires forall f :: Get(a, f) == Get(b, f)
    ensures a == b
  {
    assert Get(a, DateApplied) == Get(b, DateApplied);
    assert Get(a, Company) == Get(b, Company);
    assert Get(a, PositionTitle) == Get(b, PositionTitle);
    assert Get(a, JobLink) == Get(b, JobLink);
    assert Get(a, Location) == Get(b, Location);
    assert Get(a, ApplicationStatus) == Get(b, ApplicationStatus);
    assert Get(a, FollowUpDate) == Get(b, FollowUpDate);
    assert Get(a, InterviewDate) == Get(b, InterviewDate);
    assert Get(a, ContactPerson) == Get(b, ContactPerson);
    assert Get(a, Notes) == Get(b, Notes);
  }

  /** A record whose status cell is one of the five labels; only such rows can
      be opened in the edit form. */
  predicate Known(r: Record)
  {
    r.status in StatusLabels
  }
}
