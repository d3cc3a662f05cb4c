/** At most one user action per script run: load the file, apply add, edit
    or delete, and rewrite the file when the action completes. A run that
    applies no action writes nothing and is not modelled. */
module Session {
  import opened Wrappers
  import opened Schema
  import opened Tables
  import opened Filters

  /** The three buttons that change the table. */
  datatype Action =
    | AddApplication(form: Form)
    | EditApplication(index: nat, patch: Patch)
    | DeleteApplication(index: nat)

  /** The table after one action, or the error the action raised. An add
      always succeeds; an edit or delete of a missing row raises KeyError; an
      edit of a row whose status cell is not one of the five labels raises
      ValueError. */
  function Apply(t: Table, a: Action): (res: Result<Table, Error>)
    ensures a.AddApplication? ==> res.Success?
    ensures !a.AddApplication? && a.index >= |t| ==> res == Failure(KeyError(a.index))
    ensures a.EditApplication? && a.index < |t| && !Known(t[a.index]) ==>
              res == Failure(ValueError(t[a.index].status))
    ensures a.EditApplication? && a.index < |t| && Known(t[a.index]) ==> res.Success?
    ensures a.DeleteApplication? && a.index < |t| ==> res.Success?
    ensures a.AddApplication? ==> res == Success(Add(t, NewEntry(a.form)))
    ensures a.EditApplication? ==> res == Update(t, a.index, a.patch)
    ensures a.DeleteApplication? && a.index < |t| ==> res == Success(Delete(t, a.index).value.0)
    ensures res.Success? && a.AddApplication? ==> |res.value| == |t| + 1
    ensures res.Success? && a.EditApplication? ==> |res.value| == |t|
    ensures res.Success? && a.DeleteApplication? ==> |res.value| == |t| - 1
  {
    match a
    case AddApplication(form) => Success(Add(t, NewEntry(form)))
    case EditApplication(i, p) => Update(t, i, p)
    case DeleteApplication(i) =>
      match Delete(t, i)
      case Success((rest, _)) => Success(rest)
      case Failure(e) => Failure(e)
  }

  /** One script run: the file is rewritten with the new table after a
      successful action and left as it was when the action raised. */
  function Step(file: Stored, a: Action): (file': Stored)
    ensures Apply(Load(file), a).Success? ==> Load(file') == Apply(Load(file), a).value
    ensures Apply(Load(file), a).Failure? ==> file' == file
    // The headline case of the failure clause: an edit of a row with an
    // unknown status leaves the file as it was.
    ensures a.EditApplication? && a.index < |Load(file)| && !Known(Load(file)[a.index]) ==> file' == file
  {
    match Apply(Load(file), a)
    case Success(t) => Save(t)
    case Failure(_) => file
  }

  /** A sequence of script runs, oldest first. */
  function Run(file: Stored, actions: seq<Action>): Stored
    decreases |actions|
  {
    if |actions| == 0 then file else Run(Step(file, actions[0]), actions[1..])
  }

  /** No action puts an unknown status into a table that has none, and on
      such a table an action fails only for a missing row. */
  lemma ApplyPreservesWellFormed(t: Table, a: Action)
    requires WellFormed(t)
    ensures Apply(t, a).Success? ==> WellFormed(Apply(t, a).value)
    ensures Apply(t, a).Failure? <==> !a.AddApplication? && a.index >= |t|
  {
  }

  /** Running a further action after a sequence of runs is one more step on
      the file the sequence left behind. */
  lemma {:induction false} RunAppend(file: Stored, actions: seq<Action>, a: Action)
    ensures Run(file, actions + [a]) == Step(Run(file, actions), a)
    decreases |actions|
  {
    if |actions| == 0 {
      assert actions + [a] == [a];
      assert [a][1..] == [];
    } else {
      assert (actions + [a])[0] == actions[0];
      assert (actions + [a])[1..] == actions[1..] + [a];
      RunAppend(Step(file, actions[0]), actions[1..], a);
    }
  }

  lemma {:induction false} RunPreservesWellFormed(file: Stored, actions: seq<Action>)
    requires WellFormed(Load(file))
    ensures WellFormed(Load(Run(file, actions)))
    decreases |actions|
  {
    if |actions| > 0 {
      ApplyPreservesWellFormed(Load(file), actions[0]);
      RunPreservesWellFormed(Step(file, actions[0]), actions[1..]);
    }
  }

  /** Starting without a file, every table the script can reach opens every
      row in the edit form: the status lookup never raises. */
  lemma EditFormNeverFails(actions: seq<Action>)
    ensures var t := Load(Run(None, actions));
            forall j :: 0 <= j < |t| ==> EditFormStatus(t[j]).Success?
  {
    RunPreservesWellFormed(None, actions);
  }

  /** Two rows, Acme (Submitted) and Globex (Offer): choosing "Offer" shows
      only the Globex row, and deleting row 0 leaves Globex alone at index 0. */
  lemma TwoRowExample()
    ensures var acme := Record(Date(2024, 1, 1), "Acme", "Engineer", "", "", "Submitted", None, None, "", "");
            var globex := Record(Date(2024, 1, 5), "Globex", "Designer", "", "", "Offer", None, None, "", "");
            && FilterByStatus([acme, globex], {"Offer"}) == [globex]
            && Delete([acme, globex], 0) == Success(([globex], acme))
  {
    var acme := Record(Date(2024, 1, 1), "Acme", "Engineer", "", "", "Submitted", None, None, "", "");
    var globex := Record(Date(2024, 1, 5), "Globex", "Designer", "", "", "Offer", None, None, "", "");
    var t := [acme, globex];
    assert "Submitted" != "Offer" by { assert "Submitted"[0] != "Offer"[0]; }
    assert t[1..] == [globex];
    assert t[1..][1..] == [];
    assert !Selected(acme, {"Offer"});
    assert Keep(t[1..][1..], {"Offer"}) == [];
    assert Keep(t[1..], {"Offer"}) == [globex];
    assert Keep(t, {"Offer"}) == [globex];
    assert t[..0] + t[1..] == [globex];
  }
}
