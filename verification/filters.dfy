/** The "View & Filter Applications" section: the rows whose status is among
    the multiselect's choices, in table order; an empty choice shows every row. */
module Filters {
  import opened Schema
  import opened Tables

  /** The multiselect's options: the distinct statuses present in the table. */
  function StatusesOf(t: Table): (s: set<string>)
    ensures forall j :: 0 <= j < |t| ==> t[j].status in s
    ensures forall x :: x in s ==> exists j :: 0 <= j < |t| && t[j].status == x
  {
    set j | 0 <= j < |t| :: t[j].status
  }

  /** Whether a row passes the `isin` test. */
  predicate Selected(r: Record, selection: set<string>)
  {
    r.status in selection
  }

  /** The rows that pass the `isin` test, in their original order. */
  function Keep(t: Table, selection: set<string>): (r: Table)
    ensures |r| <= |t|
    ensures forall k :: 0 <= k < |r| ==> Selected(r[k], selection)
  {
    if |t| == 0 then []
    else if Selected(t[0], selection) then [t[0]] + Keep(t[1..], selection)
    else Keep(t[1..], selection)
  }

  /** The table shown for a multiselect choice: everything when nothing is
      chosen, otherwise the selected rows. */
  function FilterByStatus(t: Table, selection: set<string>): (r: Table)
    ensures |r| <= |t|
    ensures selection == {} ==> r == t
    ensures selection != {} ==> forall k :: 0 <= k < |r| ==> r[k].status in selection
  {
    if selection == {} then t else Keep(t, selection)
  }

  /** The positions at or after `lo` whose row passes the `isin` test, in
      increasing order: the true entries of the boolean mask. */
  function Positions(t: Table, selection: set<string>, lo: nat): (idx: seq<nat>)
    requires lo <= |t|
    ensures forall k :: 0 <= k < |idx| ==> lo <= idx[k] < |t| && Selected(t[idx[k]], selection)
    ensures forall k, m :: 0 <= k < m < |idx| ==> idx[k] < idx[m]
    ensures forall j :: lo <= j < |t| && Selected(t[j], selection) ==> j in idx
    decreases |t| - lo
  {
    if lo == |t| then []
    else if Selected(t[lo], selection) then [lo] + Positions(t, selection, lo + 1)
    else Positions(t, selection, lo + 1)
  }

  /** The rows of `t` at the given positions, in the order given. */
  function Gather(t: Table, idx: seq<nat>): (r: Table)
    requires forall k :: 0 <= k < |idx| ==> idx[k] < |t|
    ensures |r| == |idx|
    ensures forall k :: 0 <= k < |idx| ==> r[k] == t[idx[k]]
  {
    seq(|idx|, k requires 0 <= k < |idx| => t[idx[k]])
  }

  lemma GatherCons(t: Table, lo: nat, rest: seq<nat>)
    requires lo < |t|
    requires forall k :: 0 <= k < |rest| ==> rest[k] < |t|
    ensures Gather(t, [lo] + rest) == [t[lo]] + Gather(t, rest)
  {
  }

  lemma {:induction false} KeepFrom(t: Table, selection: set<string>, lo: nat)
    requires lo <= |t|
    ensures Keep(t[lo..], selection) == Gather(t, Positions(t, selection, lo))
    decreases |t| - lo
  {
    if lo < |t| {
      KeepFrom(t, selection, lo + 1);
      var suffix := t[lo..];
      var rest := Positions(t, selection, lo + 1);
      assert suffix[0] == t[lo];
      assert suffix[1..] == t[lo + 1..];
      if Selected(t[lo], selection) {
        assert Keep(suffix, selection) == [t[lo]] + Keep(t[lo + 1..], selection);
        assert Positions(t, selection, lo) == [lo] + rest;
        GatherCons(t, lo, rest);
      } else {
        assert Keep(suffix, selection) == Keep(t[lo + 1..], selection);
        assert Positions(t, selection, lo) == rest;
      }
    }
  }

  /** A non-empty choice shows exactly the rows at the mask's true positions,
      in increasing position order: every selected row, no other row, the
      original order kept. */
  lemma FilterIsMaskSelection(t: Table, selection: set<string>)
    requires selection != {}
    ensures FilterByStatus(t, selection) == Gather(t, Positions(t, selection, 0))
  {
    KeepFrom(t, selection, 0);
    assert t[0..] == t;
  }

  lemma {:induction false} KeepAll(t: Table, selection: set<string>)
    requires forall j :: 0 <= j < |t| ==> Selected(t[j], selection)
    ensures Keep(t, selection) == t
  {
    if |t| > 0 {
      KeepAll(t[1..], selection);
      assert [t[0]] + t[1..] == t;
    }
  }

  /** Choosing every option the multiselect offers shows the whole table. */
  lemma FilterAllOptions(t: Table)
    ensures FilterByStatus(t, StatusesOf(t)) == t
  {
    if StatusesOf(t) != {} {
      KeepAll(t, StatusesOf(t));
    }
  }

  /** Filtering an already filtered view changes nothing. */
  lemma FilterIdempotent(t: Table, selection: set<string>)
    ensures FilterByStatus(FilterByStatus(t, selection), selection) == FilterByStatus(t, selection)
  {
    if selection != {} {
      KeepAll(Keep(t, selection), selection);
    }
  }

  /** Every option chosen in the multiselect shows up in at least one row of
      the view: the options come from the table itself. */
  lemma ChosenOptionsAppear(t: Table, selection: set<string>)
    requires selection <= StatusesOf(t)
    ensures forall x :: x in selection ==> exists k :: 0 <= k < |FilterByStatus(t, selection)| && FilterByStatus(t, selection)[k].status == x
  {
    if selection != {} {
      FilterIsMaskSelection(t, selection);
      var idx := Positions(t, selection, 0);
      var r := FilterByStatus(t, selection);
      forall x | x in selection
        ensures exists k :: 0 <= k < |r| && r[k].status == x
      {
        var j :| 0 <= j < |t| && t[j].status == x;
        assert j in idx;
        var k :| 0 <= k < |idx| && idx[k] == j;
        assert r[k] == t[j];
      }
    }
  }

  lemma {:induction false} KeepAppend(a: Table, b: Table, selection: set<string>)
    ensures Keep(a + b, selection) == Keep(a, selection) + Keep(b, selection)
  {
    if |a| > 0 {
      KeepAppend(a[1..], b, selection);
      assert (a + b)[0] == a[0];
      assert (a + b)[1..] == a[1..] + b;
    } else {
      assert a + b == b;
    }
  }

  /** After adding a record, a non-empty choice shows the earlier view followed
      by the new record if its status is chosen. */
  lemma FilterAfterAdd(t: Table, r: Record, selection: set<string>)
    requires selection != {}
    ensures FilterByStatus(Add(t, r), selection)
         == FilterByStatus(t, selection) + (if r.status in selection then [r] else [])
  {
    KeepAppend(t, [r], selection);
    assert [r][1..] == [];
  }
}
