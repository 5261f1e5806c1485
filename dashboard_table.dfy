// The dashboard's table state: the loaded records, the filter inputs, the
// sort column and direction, the page, and the set of selected rows, with
// the handlers that replace them.

module DashboardTable {
  import opened Records
  import opened Seqs
  import opened DashboardQuery

  /** A record after a successful status change from the dashboard: the new
      status, and `isExpired` exactly when the new status is completed. */
  function WithDerivedStatus(r: Registration, st: Status): (u: Registration)
    ensures u.status == st && u.isExpired == (st == Completed)
    ensures u.(status := r.status, isExpired := r.isExpired) == r
  {
    r.(status := st, isExpired := st == Completed)
  }

  /** The list after one successful `updateStatus(id, st)`: only the
      records with that id change, and in them only `status` and
      `isExpired`; order and length are kept. */
  function ApplyStatus(rs: seq<Registration>, id: string, st: Status): (r: seq<Registration>)
    ensures |r| == |rs|
    ensures forall i :: 0 <= i < |rs| && rs[i].id != id ==> r[i] == rs[i]
    ensures forall i :: 0 <= i < |rs| && rs[i].id == id ==>
              r[i].status == st && r[i].isExpired == (st == Completed)
              && r[i].(status := rs[i].status, isExpired := rs[i].isExpired) == rs[i]
  {
    seq(|rs|, i requires 0 <= i < |rs| => if rs[i].id == id then WithDerivedStatus(rs[i], st) else rs[i])
  }

  /** The list after every id of `ids` was updated successfully to `st`. */
  function ApplyBulk(rs: seq<Registration>, ids: set<string>, st: Status): (r: seq<Registration>)
    ensures |r| == |rs|
    ensures forall i :: 0 <= i < |rs| && rs[i].id !in ids ==> r[i] == rs[i]
    ensures forall i :: 0 <= i < |rs| && rs[i].id in ids ==>
              r[i].status == st && r[i].isExpired == (st == Completed)
              && r[i].(status := rs[i].status, isExpired := rs[i].isExpired) == rs[i]
  {
    seq(|rs|, i requires 0 <= i < |rs| => if rs[i].id in ids then WithDerivedStatus(rs[i], st) else rs[i])
  }

  /** Repeating a status change changes nothing more. */
  lemma ApplyStatusIdempotent(rs: seq<Registration>, id: string, st: Status)
    ensures ApplyStatus(ApplyStatus(rs, id, st), id, st) == ApplyStatus(rs, id, st)
  {
  }

  /** One more successful update extends the set of updated ids. */
  lemma ApplyBulkStep(rs: seq<Registration>, ids: set<string>, id: string, st: Status)
    ensures ApplyStatus(ApplyBulk(rs, ids, st), id, st) == ApplyBulk(rs, ids + {id}, st)
  {
  }

  lemma ApplyBulkNone(rs: seq<Registration>, st: Status)
    ensures ApplyBulk(rs, {}, st) == rs
  {
  }

  /** `handleCheckboxChange`: flips whether `id` is selected. */
  function Toggled(sel: set<string>, id: string): (r: set<string>)
    ensures id in r <==> id !in sel
    ensures forall x :: x != id ==> (x in r <==> x in sel)
  {
    if id in sel then sel - {id} else sel + {id}
  }

  /** Ticking a row twice restores the selection. */
  lemma ToggledTwice(sel: set<string>, id: string)
    ensures Toggled(Toggled(sel, id), id) == sel
  {
  }

  /** The header checkbox: ticked when something is selected and every row
      of the page is. */
  function HeaderChecked(sel: set<string>, page: seq<Registration>): (b: bool)
    ensures sel == {} ==> !b
    ensures page != [] ==> (b <==> forall i :: 0 <= i < |page| ==> page[i].id in sel)
  {
    assert page != [] && page[0].id in sel ==> |sel| > 0 by {
      if page != [] && page[0].id in sel {
        assert sel != {};
      }
    }
    |sel| > 0 && forall i :: 0 <= i < |page| ==> page[i].id in sel
  }

  /** After "select all" on a page with rows the header checkbox is ticked. */
  lemma SelectAllChecksHeader(page: seq<Registration>)
    requires page != []
    ensures HeaderChecked(IdSet(page), page)
  {
    assert page[0].id in IdSet(page);
  }

  class Dashboard {
    /** `x.localeCompare(y) <= 0`, the browser's collation. */
    const localeLe: (string, string) -> bool
    var registrations: seq<Registration>
    var query: Query
    var sortKey: SortKey
    var sortAsc: bool
    var currentPage: int
    var itemsPerPage: int
    var selectedRows: set<string>

    ghost predicate Valid()
      reads this
    {
      currentPage >= 1 && itemsPerPage >= 1
    }

    /** The initial state: nothing loaded, no filter, sorted by name
        ascending, page 1 of 10 rows, nothing selected. */
    constructor (localeLe: (string, string) -> bool)
      ensures Valid()
      ensures this.localeLe == localeLe
      ensures registrations == [] && selectedRows == {}
      ensures query == Query("", All, DayInput("", 0, 0), DayInput("", 0, 0))
      ensures sortKey == FullName && sortAsc
      ensures currentPage == 1 && itemsPerPage == 10
    {
      this.localeLe := localeLe;
      registrations := [];
      query := Query("", All, DayInput("", 0, 0), DayInput("", 0, 0));
      sortKey := FullName;
      sortAsc := true;
      currentPage := 1;
      itemsPerPage := 10;
      selectedRows := {};
    }

    function SortedRows(): seq<Registration>
      reads this
    {
      Sorted(Filtered(registrations, query), localeLe, sortKey, sortAsc)
    }

    function PageRows(): seq<Registration>
      reads this
      requires Valid()
    {
      Paginated(SortedRows(), currentPage, itemsPerPage)
    }

    function PageCount(): nat
      reads this
      requires Valid()
    {
      TotalPages(|SortedRows()|, itemsPerPage)
    }

    /** `toggleSort`: the current column flips direction, another column
        becomes the sort column in ascending order. */
    method ToggleSort(key: SortKey)
      modifies this`sortKey, this`sortAsc
      ensures sortKey == key
      ensures sortAsc == (if key == old(sortKey) then !old(sortAsc) else true)
    {
      if sortKey == key {
        sortAsc := !sortAsc;
      } else {
        sortKey := key;
        sortAsc := true;
      }
    }

    method HandleCheckboxChange(id: string)
      modifies this`selectedRows
      ensures selectedRows == Toggled(old(selectedRows), id)
    {
      if id in selectedRows {
        selectedRows := selectedRows - {id};
      } else {
        selectedRows := selectedRows + {id};
      }
    }

    /** `handleSelectAll`: select exactly the rows of the current page, or
        nothing. */
    method HandleSelectAll(checked: bool)
      requires Valid()
      modifies this`selectedRows
      ensures checked ==> selectedRows == IdSet(PageRows())
      ensures !checked ==> selectedRows == {}
    {
      if checked {
        selectedRows := set r | r in PageRows() :: r.id;
      } else {
        selectedRows := {};
      }
    }

    /** `updateStatus` once the server has answered: on success the matching
        records get the status and the derived `isExpired`; on a failure or
        an exception the list is left alone. */
    method UpdateStatus(id: string, newStatus: Status, serverOk: bool)
      modifies this`registrations
      ensures registrations == if serverOk then ApplyStatus(old(registrations), id, newStatus) else old(registrations)
    {
      if serverOk {
        registrations := ApplyStatus(registrations, id, newStatus);
      }
    }

    /** `handleBulkUpdate`: one `updateStatus` per selected id, `accepted`
        being the ids whose update the server confirms; the selection is
        cleared afterwards whatever the outcomes, since `updateStatus`
        handles its own failures. */
    method HandleBulkUpdate(newStatus: Status, accepted: set<string>)
      modifies this`registrations, this`selectedRows
      ensures registrations == ApplyBulk(old(registrations), old(selectedRows) * accepted, newStatus)
      ensures selectedRows == {}
    {
      if |selectedRows| == 0 {
        ApplyBulkNone(registrations, newStatus);
        return;
      }
      var remaining := selectedRows;
      ghost var done: set<string> := {};
      ApplyBulkNone(registrations, newStatus);
      while remaining != {}
        invariant remaining <= old(selectedRows) && done == old(selectedRows) - remaining
        invariant registrations == ApplyBulk(old(registrations), done * accepted, newStatus)
        decreases remaining
      {
        var id :| id in remaining;
        UpdateStatus(id, newStatus, id in accepted);
        if id in accepted {
          ApplyBulkStep(old(registrations), done * accepted, id, newStatus);
          assert done * accepted + {id} == (done + {id}) * accepted;
        } else {
          assert done * accepted == (done + {id}) * accepted;
        }
        remaining := remaining - {id};
        done := done + {id};
      }
      selectedRows := {};
    }

    /** Typing in the search box, which also returns to page 1. */
    method SetSearch(text: string)
      modifies this`query, this`currentPage
      ensures query == old(query).(search := text) && currentPage == 1
    {
      query := query.(search := text);
      currentPage := 1;
    }

    /** The status buttons of the filter panel; the page is kept, so it may
        lie past the last page of the new table. */
    method SetFilterStatus(f: StatusFilter)
      modifies this`query
      ensures query == old(query).(filterStatus := f)
    {
      query := query.(filterStatus := f);
    }

    /** The date fields of the filter panel; the page is kept. */
    method SetDateRange(startDate: DayInput, endDate: DayInput)
      modifies this`query
      ensures query == old(query).(startDate := startDate, endDate := endDate)
    {
      query := query.(startDate := startDate, endDate := endDate);
    }

    /** The "Next" button. */
    method NextPage()
      requires Valid()
      modifies this`currentPage
      ensures Valid()
      ensures currentPage == if NextDisabled(old(currentPage), PageCount()) then old(currentPage) else old(currentPage) + 1
    {
      if !NextDisabled(currentPage, PageCount()) {
        currentPage := currentPage + 1;
      }
    }

    /** The "Previous" button. */
    method PreviousPage()
      requires Valid()
      modifies this`currentPage
      ensures Valid()
      ensures currentPage == if PreviousDisabled(old(currentPage)) then old(currentPage) else old(currentPage) - 1
    {
      if !PreviousDisabled(currentPage) {
        currentPage := currentPage - 1;
      }
    }

    /** The rows-per-page selector, which also returns to page 1. */
    method SetItemsPerPage(n: int)
      requires n >= 1
      modifies this`itemsPerPage, this`currentPage
      ensures Valid() && itemsPerPage == n && currentPage == 1
    {
      itemsPerPage := n;
      currentPage := 1;
    }
  }
}
