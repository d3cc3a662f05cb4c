# Job application tracker: record manager model

A Dafny model of the record manager inside the Streamlit script `job_tracker.py`.
The script keeps a table of job-application records in `job_tracker.csv`. On each
run it loads the table, or starts an empty one when the file is missing. It then
applies at most one user action and, when that action completes, rewrites the
file with the new table. Runs caused by other widget changes apply no action and
write nothing. The actions are:

- add a record built from the "Add New Application" form;
- edit four cells of one row;
- delete one row.

The script also shows the table filtered by application status.

The model is functional. A table is a `seq<Record>` and every operation is a
pure function on it. Row labels are positions, because every way the script
builds the table numbers its rows 0 .. n-1: `read_csv`, `concat(..., ignore_index=True)`,
and `drop(...).reset_index(drop=True)`. The selector for edit and delete offers
only existing row labels. A label the table does not hold would make `df.loc`
raise `KeyError` before anything is written. The model keeps that error path as
`Failure(KeyError(i))`.

Modules:

- `Wrappers` (wrappers.dfy): `Option` and `Result`.
- `Schema` (schema.dfy): the ten columns, the `Record` datatype, and the five-valued
  `Status` of the select box with its labels. It also has `list.index`, which the
  edit form uses to pre-select a row's status.
- `Tables` (tables.dfy): load/save, the add form's record, add, edit (`Update`),
  delete, and the well-formedness invariant.
- `Filters` (filters.dfy): the status multiselect and the `isin` filter.
- `Session` (session.dfy): one action per script run, and sequences of runs.

Modelling choices:

- `Record.status` holds the stored cell text, not a `Status`. The file can contain
  any text there. The form always writes one of the five labels. `list.index` at
  job_tracker.py:86 raises `ValueError` for any other text. `WellFormed` says every
  row holds one of the labels. An edit of a row holding other text raises
  `ValueError` and writes nothing. Add, edit and delete preserve the invariant,
  so a table grown from a missing file never makes the edit form fail.
- Follow-up and interview dates are `Option<Date>`: an empty cell reads back as
  NaN, which the model writes as `None`. The form's date widgets always produce a
  day, so add and edit store `Some`.
- An empty status selection shows the whole table, as the code does at
  job_tracker.py:65-69.
- The model does not read or write any file. The persisted file is modelled as
  `Stored = Option<Table>`: `None` while the file does not exist, otherwise the
  table last saved.

## Model

| member | source | states |
|---|---|---|
| Schema.SchemaColumns | job_tracker.py:8-12 | The schema has ten columns, every field is one of them, and their header names are pairwise distinct |
| Schema.CellsDetermineRecord | job_tracker.py:8-12 | Two records that agree in all ten columns are equal, so the columns describe a record completely |
| Schema.IndexOf | job_tracker.py:86 | `list.index`: the result is absent exactly when the value is not in the list; otherwise it is the first position holding the value |
| Schema.ParseStatus | job_tracker.py:36 | A stored status cell reads as a status exactly when it is one of the five labels, and the status read back is written as that same label |
| Schema.ParseLabel | job_tracker.py:36 | Writing any of the five statuses as its label and reading it back gives the same status |
| Schema.LabelInjective | job_tracker.py:36 | Two statuses have the same label only if they are the same status |
| Tables.Load | job_tracker.py:14-17 | A missing file gives the empty table; an existing file gives the table it holds |
| Tables.Save | job_tracker.py:54 | Loading the file just written gives back the table that was saved |
| Tables.NewEntry | job_tracker.py:41-52 | A record built from the add form holds each form value in the column of the same name. Its status cell is the label of the chosen status, so it reads back as that status. Both optional dates are present |
| Tables.Add | job_tracker.py:53 | The new table is one row longer, the new record is the last row, and every earlier row is unchanged at its index |
| Tables.Patched | job_tracker.py:93-96 | An edited row has the chosen status label, follow-up date, interview date and notes; its other six columns equal the original |
| Tables.Update | job_tracker.py:81-96 | An edit succeeds exactly when the index is a row whose status cell is one of the five labels. A missing row raises KeyError. A row with any other status text raises ValueError from the status pre-selection. On success the length is kept, the row at the index is patched, and every other row is unchanged |
| Tables.Delete | job_tracker.py:107-111 | A delete succeeds exactly when the index is a row, and raises KeyError otherwise; on success it reports the row at the index, the table is one row shorter, earlier rows stay, and later rows move down by one |
| Tables.DeleteUndo | job_tracker.py:110-111 | Putting the reported record back at the deleted index restores the original table |
| Tables.AddThenDeleteLast | job_tracker.py:110-111 | Adding a record and then deleting the last row gives back the original table and reports the added record |
| Tables.DeleteLastThenAdd | job_tracker.py:110-111 | Deleting the last row and adding the reported record back restores the table |
| Tables.UpdateTwice | job_tracker.py:93-96 | When the first edit of a row succeeds, a second edit of the same row gives the same table as the second edit alone |
| Tables.UpdatesCommute | job_tracker.py:93-96 | When edits of two different rows each succeed, applying both gives the same table in either order |
| Tables.AddPreservesWellFormed | job_tracker.py:36-53 | Adding a record with a known status to a table whose statuses are all known keeps every status known |
| Tables.UpdatePreservesWellFormed | job_tracker.py:85-96 | In a table whose statuses are all known, editing an existing row succeeds and keeps every status known |
| Tables.DeletePreservesWellFormed | job_tracker.py:111 | Deleting a row keeps every status in the table known |
| Tables.EditFormStatus | job_tracker.py:85-86 | Pre-selecting a row's status succeeds exactly when its cell is one of the five labels and yields the status with that label; otherwise it raises ValueError |
| Tables.EditKeepsStatus | job_tracker.py:85-93 | Saving the edit form with the pre-selected status leaves the row's status cell as it was |
| Filters.StatusesOf | job_tracker.py:63 | The filter options are exactly the statuses that occur in some row |
| Filters.Keep | job_tracker.py:67 | The `isin` filter returns no more rows than the table, and every row it returns has a selected status |
| Filters.FilterByStatus | job_tracker.py:65-69 | An empty selection shows the whole table unchanged. The view is never longer than the table. With a non-empty selection, every row shown has a selected status |
| Filters.Positions | job_tracker.py:67 | The mask's true positions are in range, strictly increasing, and include every position whose status is selected and no other |
| Filters.Gather | job_tracker.py:67 | Taking rows at given positions yields one row per position, in the given order |
| Filters.FilterIsMaskSelection | job_tracker.py:66-67 | With a non-empty selection, the view is exactly the rows at the selected positions, in increasing position order: every selected row, no other row, original order kept |
| Filters.FilterAllOptions | job_tracker.py:63-69 | Choosing every option the multiselect offers shows the whole table unchanged |
| Filters.FilterIdempotent | job_tracker.py:65-69 | Filtering the view again with the same selection changes nothing |
| Filters.ChosenOptionsAppear | job_tracker.py:63-67 | Every status chosen among the offered options appears in at least one row of the view |
| Filters.FilterAfterAdd | job_tracker.py:66-67 | After an add, the view with a non-empty selection is the old view, followed by the new record when its status is selected |
| Session.Apply | job_tracker.py:53-111 | Add always succeeds. Edit and delete raise KeyError when the index is not a row. An edit of a row whose status cell is not one of the five labels raises ValueError. Otherwise edit and delete succeed. The new table is the old one with the add form's record appended, with the edited row patched, or with the deleted row removed, respectively, so it is one row longer, the same length, or one row shorter |
| Session.Step | job_tracker.py:14-112 | After a successful action the file holds the new table. After a failed one the file is unchanged, in particular after an edit of a row with an unknown status |
| Session.ApplyPreservesWellFormed | job_tracker.py:53-111 | No action introduces a status outside the five labels. On a table whose statuses are all known, an action fails only when its index is not a row |
| Session.RunAppend | job_tracker.py:14-112 | `Run` performs script runs one after another: running one more action after a sequence is one more `Step` on the file the sequence left |
| Session.RunPreservesWellFormed | job_tracker.py:14-112 | Any sequence of script runs (`Run`) keeps a well-formed file well-formed |
| Session.EditFormNeverFails | job_tracker.py:86 | Starting without a file, every row of every reachable table opens in the edit form without raising ValueError |
| Session.TwoRowExample | job_tracker.py:66-111 | On the Acme/Globex table, choosing "Offer" shows only Globex, and deleting row 0 leaves Globex alone at index 0 and reports Acme |

## Left out

- The Streamlit widgets, forms, layout, messages and `st.experimental_rerun` are left out. They are presentation, not table logic.
- CSV reading and writing (`read_csv`, `to_csv`) and the download button are left out. The file is modelled as the table last saved, so type changes that pandas makes on a CSV round trip are not modelled. Examples are dates stored as text and an empty text cell read back as NaN.
- Date parsing with `pd.to_datetime` and the today defaults for empty dates in the edit form are left out. Dates are an abstract `Date` triple.
- NaN in text columns, such as the `pd.notna` fallback for notes, is left out. Text cells are plain strings.
- The labels of the edit and delete selectors are left out. They are presentation only; the model takes the chosen row index directly.
- Session.Apply: the edit section runs on every script run that reaches it with a non-empty table, which is every run except an add run (an add run stops at job_tracker.py:58). Its status lookup (job_tracker.py:86) executes for whichever row the edit selector shows, before the delete section is reached. So a delete run also raises ValueError when that row's status is unknown. The model does not track the edit selector's state, so its delete fails only with KeyError.
- A file whose columns differ from the schema is left out. The table always has the schema's ten columns.
