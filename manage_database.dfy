// The database editor page: the optimistic status change with rollback on
// the list of records, and the helpers of the edit form (program
// checkboxes, the uploaded-file reset, the payload sent on save).

module ManageDatabase {
  import opened Records
  import opened Seqs

  // ---------------------------------------------------------------------
  // Optimistic status update

  /** `registrations.find(reg => reg._id === id)?.status`: the status of the
      first record with that id. */
  function FindStatus(rs: seq<Registration>, id: string): (o: Option<Status>)
    ensures o.None? <==> forall i :: 0 <= i < |rs| ==> rs[i].id != id
    ensures o.Some? ==> exists i :: && 0 <= i < |rs| && rs[i].id == id && rs[i].status == o.value
                                    && forall j :: 0 <= j < i ==> rs[j].id != id
    decreases |rs|
  {
    if rs == [] then None
    else if rs[0].id == id then Some(rs[0].status)
    else
      var o := FindStatus(rs[1..], id);
      assert forall i :: 1 <= i < |rs| ==> rs[i] == rs[1..][i - 1];
      o
  }

  /** The optimistic step: records with the id get the new status; nothing
      else changes, not even `isExpired`. */
  function WithStatus(rs: seq<Registration>, id: string, st: Status): (r: seq<Registration>)
    ensures |r| == |rs|
    ensures forall i :: 0 <= i < |rs| && rs[i].id != id ==> r[i] == rs[i]
    ensures forall i :: 0 <= i < |rs| && rs[i].id == id ==> r[i].status == st && r[i].(status := rs[i].status) == rs[i]
  {
    seq(|rs|, i requires 0 <= i < |rs| => if rs[i].id == id then rs[i].(status := st) else rs[i])
  }

  /** The revert step: records with the id get `originalStatus || reg.status`. */
  function Reverted(rs: seq<Registration>, id: string, original: Option<Status>): (r: seq<Registration>)
    ensures |r| == |rs|
    ensures forall i :: 0 <= i < |rs| && rs[i].id != id ==> r[i] == rs[i]
    ensures forall i :: 0 <= i < |rs| && rs[i].id == id ==>
              r[i].status == original.GetOr(rs[i].status) && r[i].(status := rs[i].status) == rs[i]
  {
    seq(|rs|, i requires 0 <= i < |rs| => if rs[i].id == id then rs[i].(status := original.GetOr(rs[i].status)) else rs[i])
  }

  /** All records carrying `id` have the same status (true when ids are
      unique, as the store's `_id` is). */
  ghost predicate OneStatusFor(rs: seq<Registration>, id: string)
  {
    forall i, j :: 0 <= i < |rs| && 0 <= j < |rs| && rs[i].id == id && rs[j].id == id ==> rs[i].status == rs[j].status
  }

  /** A failed update leaves the list exactly as it was before the call. */
  lemma RollbackRestores(rs: seq<Registration>, id: string, st: Status)
    requires OneStatusFor(rs, id)
    ensures Reverted(WithStatus(rs, id, st), id, FindStatus(rs, id)) == rs
  {
    var orig := FindStatus(rs, id);
    var r := Reverted(WithStatus(rs, id, st), id, orig);
    forall i | 0 <= i < |rs|
      ensures r[i] == rs[i]
    {
      if rs[i].id == id {
        var k :| 0 <= k < |rs| && rs[k].id == id && rs[k].status == orig.value;
        assert rs[i].status == rs[k].status;
      }
    }
  }

  /** For an id that is not in the list both steps change nothing. */
  lemma UnknownIdUnchanged(rs: seq<Registration>, id: string, st: Status, serverOk: bool)
    requires forall i :: 0 <= i < |rs| ==> rs[i].id != id
    ensures WithStatus(rs, id, st) == rs
    ensures Reverted(WithStatus(rs, id, st), id, FindStatus(rs, id)) == rs
  {
    assert WithStatus(rs, id, st) == rs;
  }

  /** With two records sharing an id and different statuses, the revert
      gives both the status of the first one. */
  lemma SharedIdRollback()
    ensures var a := Registration("x", Some(1), "A", "a@x", None, None, None, None, None, None, None, None, None,
                                   None, None, None, None, Upcoming, false);
            var b := a.(ticketNo := Some(2), status := Pending);
            var rs := [a, b];
            Reverted(WithStatus(rs, "x", Completed), "x", FindStatus(rs, "x")) == [a, b.(status := Upcoming)]
  {
  }

  class Editor {
    var registrations: seq<Registration>

    constructor (rs: seq<Registration>)
      ensures registrations == rs
    {
      registrations := rs;
    }

    /** `updateStatus`: the optimistic change, then, when the server reports a
        failure or the request throws, the revert to the status found before. */
    method UpdateStatus(id: string, newStatus: Status, serverOk: bool)
      modifies this`registrations
      ensures var optimistic := WithStatus(old(registrations), id, newStatus);
              registrations == if serverOk then optimistic
                               else Reverted(optimistic, id, FindStatus(old(registrations), id))
    {
      var originalStatus := FindStatus(registrations, id);
      registrations := WithStatus(registrations, id, newStatus);
      if !serverOk {
        registrations := Reverted(registrations, id, originalStatus);
      }
    }
  }

  // ---------------------------------------------------------------------
  // Edit form

  /** Which checkbox group of the form. */
  datatype ProgramField = TrainingPrograms | AdditionalPrograms

  function Programs(r: Registration, f: ProgramField): Option<seq<string>>
  {
    match f
    case TrainingPrograms => r.trainingPrograms
    case AdditionalPrograms => r.additionalPrograms
  }

  /** The other checkbox group. */
  function OtherField(f: ProgramField): ProgramField
  {
    match f
    case TrainingPrograms => AdditionalPrograms
    case AdditionalPrograms => TrainingPrograms
  }

  /** `{ ...editing, [f]: ps }`: group `f` becomes `ps`; the other group and
      every other field stay as they were. */
  function WithPrograms(r: Registration, f: ProgramField, ps: seq<string>): (u: Registration)
    ensures Programs(u, f) == Some(ps)
    ensures Programs(u, OtherField(f)) == Programs(r, OtherField(f))
    ensures u.(trainingPrograms := r.trainingPrograms, additionalPrograms := r.additionalPrograms) == r
  {
    match f
    case TrainingPrograms => r.(trainingPrograms := Some(ps))
    case AdditionalPrograms => r.(additionalPrograms := Some(ps))
  }

  /** The checkbox handler's new list: ticking appends `p` to the list (an
      absent list counts as empty); unticking drops every `p`. */
  function ProgramsAfterChange(current: Option<seq<string>>, p: string, checked: bool): (r: seq<string>)
    ensures var xs := current.GetOr([]);
      && (checked ==> |r| == |xs| + 1 && r[..|xs|] == xs && r[|xs|] == p)
      && (!checked ==> p !in r && (forall y :: y in xs && y != p ==> y in r) && IsSubsequence(r, xs))
  {
    var xs := current.GetOr([]);
    if checked then xs + [p]
    else
      FilterIsSubsequence(xs, prog => prog != p);
      FilterMembers(xs, prog => prog != p);
      Filter(xs, prog => prog != p)
  }

  /** Unticking keeps how often every other program occurs. */
  lemma UncheckKeepsOthers(current: Option<seq<string>>, p: string, y: string)
    requires y != p
    ensures multiset(ProgramsAfterChange(current, p, false))[y] == multiset(current.GetOr([]))[y]
  {
    FilterMultiplicity(current.GetOr([]), prog => prog != p, y);
  }

  /** The form after a checkbox of group `f` changed. */
  function OnProgramChange(editing: Registration, f: ProgramField, p: string, checked: bool): (u: Registration)
    ensures Programs(u, f) == Some(ProgramsAfterChange(Programs(editing, f), p, checked))
    ensures Programs(u, OtherField(f)) == Programs(editing, OtherField(f))
    ensures u.(trainingPrograms := editing.trainingPrograms, additionalPrograms := editing.additionalPrograms) == editing
  {
    WithPrograms(editing, f, ProgramsAfterChange(Programs(editing, f), p, checked))
  }

  /** `isSelected`: false while nothing is edited or the list is absent,
      otherwise whether the list holds `p`. */
  function IsSelected(editing: Option<Registration>, p: string, f: ProgramField): (b: bool)
    ensures b <==> editing.Some? && Programs(editing.value, f).Some? && p in Programs(editing.value, f).value
  {
    if editing.None? || Programs(editing.value, f).None? then false
    else p in Programs(editing.value, f).value
  }

  /** A ticked box shows as ticked, an unticked one as unticked. */
  lemma ChangeShowsInCheckbox(editing: Registration, f: ProgramField, p: string, checked: bool)
    ensures IsSelected(Some(OnProgramChange(editing, f, p, checked)), p, f) == checked
  {
    var xs := Programs(editing, f).GetOr([]);
    if checked {
      assert ProgramsAfterChange(Programs(editing, f), p, true)[|xs|] == p;
    }
  }

  /** Ticking an unticked program and unticking it again restores a
      present list. */
  lemma {:induction false} CheckUncheckRestores(editing: Registration, f: ProgramField, p: string)
    requires Programs(editing, f).Some? && p !in Programs(editing, f).value
    ensures OnProgramChange(OnProgramChange(editing, f, p, true), f, p, false) == editing
  {
    var xs := Programs(editing, f).value;
    var ticked := OnProgramChange(editing, f, p, true);
    assert Programs(ticked, f) == Some(xs + [p]);
    FilterAppend(xs, [p], prog => prog != p);
    FilterKeepsAll(xs, prog => prog != p);
    assert Filter([p], prog => prog != p) == [];
    assert ProgramsAfterChange(Programs(ticked, f), p, false) == xs;
    match f
    case TrainingPrograms =>
    case AdditionalPrograms =>
  }

  /** The state of the edit modal: the record being edited and the file
      picked for upload, if any. */
  datatype EditForm = EditForm(editing: Option<Registration>, selectedFile: Option<string>)

  /** `clearFile`: blanks the upload id and name and drops the picked file;
      does nothing while no record is being edited. */
  function ClearFile(form: EditForm): (r: EditForm)
    ensures form.editing.None? ==> r == form
    ensures form.editing.Some? ==>
      && r.selectedFile.None?
      && r.editing.Some?
      && r.editing.value.uploadId == Some("") && r.editing.value.uploadName == Some("")
      && r.editing.value.(uploadId := form.editing.value.uploadId, uploadName := form.editing.value.uploadName) == form.editing.value
  {
    match form.editing
    case None => form
    case Some(e) => EditForm(Some(e.(uploadId := Some(""), uploadName := Some(""))), None)
  }

  /** The record sent by `handleEditSubmit`: `ticketNo` becomes
      `Number(ticketNo || 0)`, every other field is sent as it is. */
  function EditPayload(r: Registration): (p: Registration)
    ensures p.ticketNo.Some?
    ensures r.ticketNo.None? || r.ticketNo == Some(0) ==> p.ticketNo == Some(0)
    ensures r.ticketNo.Some? ==> p.ticketNo == r.ticketNo
    ensures p.(ticketNo := r.ticketNo) == r
  {
    r.(ticketNo := Some(if r.ticketNo.Some? && r.ticketNo.value != 0 then r.ticketNo.value else 0))
  }
}
