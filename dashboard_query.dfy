// The registrations table of the dashboard as a pipeline of list
// expressions: filter (search, status, date range), then sort, then cut out
// one page; plus the per-status counts shown in the cards and the pie chart.

module DashboardQuery {
  import opened Records
  import opened Text
  import opened Seqs

  // ---------------------------------------------------------------------
  // Filtering

  /** The status drop-down: every status, or one. */
  datatype StatusFilter = All | Only(status: Status)

  /** A date field of the filter panel: what was typed (empty when unset)
      and the two timestamps the filter derives from it,
      `new Date(text).setHours(0, 0, 0, 0)` and
      `new Date(text).setHours(23, 59, 59, 999)`. The browser reads a
      date-only text as midnight UTC and then moves to the start or the end
      of the local calendar day holding that instant, which west of UTC is
      the day before the one typed. */
  datatype DayInput = DayInput(text: string, startOfDay: int, endOfDay: int)

  /** The filter inputs of the table. */
  datatype Query = Query(search: string, filterStatus: StatusFilter, startDate: DayInput, endDate: DayInput)

  /** `String(r.ticketNo)`: the decimal digits, or "undefined" when absent;
      no number prints as "undefined". */
  function TicketText(t: Option<int>): (r: string)
    ensures r == "undefined" <==> t.None?
  {
    match t
    case Some(n) => IntToString(n)
    case None => "undefined"
  }

  /** Lower-cased name, email or profession contains the lower-cased search. */
  predicate MatchesText(r: Registration, search: string)
  {
    var q := Lower(search);
    || Includes(Lower(r.fullName), q)
    || Includes(Lower(r.email), q)
    || (r.currentProfession.Some? && Includes(Lower(r.currentProfession.value), q))
  }

  /** The raw id or the ticket number's text contains the search as typed. */
  predicate MatchesRaw(r: Registration, search: string)
  {
    Includes(r.id, search) || Includes(TicketText(r.ticketNo), search)
  }

  predicate MatchesSearch(r: Registration, search: string)
  {
    MatchesText(r, search) || MatchesRaw(r, search)
  }

  /** The date range applies only when both date fields are filled in. */
  predicate DateFilterOn(q: Query)
  {
    q.startDate.text != [] && q.endDate.text != []
  }

  /** The record has a call date between the start of the first day and the
      end of the last day, both inclusive. */
  predicate InDateRange(r: Registration, startDate: DayInput, endDate: DayInput)
  {
    r.callDateTime.Some? && startDate.startOfDay <= r.callDateTime.value <= endDate.endOfDay
  }

  /** `filtered`: the search, then the status, then the date-range filter,
      each applied only when its input is set. */
  function Filtered(rs: seq<Registration>, q: Query): (r: seq<Registration>)
    ensures |r| <= |rs|
  {
    var afterSearch := if q.search != [] then Filter(rs, r => MatchesSearch(r, q.search)) else rs;
    var afterStatus := if q.filterStatus.Only? then Filter(afterSearch, (r: Registration) => r.status == q.filterStatus.status) else afterSearch;
    if DateFilterOn(q) then Filter(afterStatus, r => InDateRange(r, q.startDate, q.endDate)) else afterStatus
  }

  predicate SearchOk(r: Registration, q: Query)
  {
    q.search == [] || MatchesSearch(r, q.search)
  }

  predicate StatusOk(r: Registration, q: Query)
  {
    q.filterStatus.All? || r.status == q.filterStatus.status
  }

  predicate DateOk(r: Registration, q: Query)
  {
    !DateFilterOn(q) || InDateRange(r, q.startDate, q.endDate)
  }

  /** The conditions a record has to meet to stay in the table. */
  predicate Kept(r: Registration, q: Query)
  {
    SearchOk(r, q) && StatusOk(r, q) && DateOk(r, q)
  }

  /** The three successive filters are one filter by `Kept`. */
  lemma FilteredIsKept(rs: seq<Registration>, q: Query)
    ensures Filtered(rs, q) == Filter(rs, r => Kept(r, q))
  {
    var k1 := (r: Registration) => SearchOk(r, q);
    var k2 := (r: Registration) => StatusOk(r, q);
    var k3 := (r: Registration) => DateOk(r, q);
    var k12 := (r: Registration) => SearchOk(r, q) && StatusOk(r, q);
    var afterSearch := if q.search != [] then Filter(rs, r => MatchesSearch(r, q.search)) else rs;
    FilterWhen(rs, q.search != [], r => MatchesSearch(r, q.search), k1);
    var afterStatus := if q.filterStatus.Only? then Filter(afterSearch, (r: Registration) => r.status == q.filterStatus.status) else afterSearch;
    if q.filterStatus.Only? {
      FilterWhen(afterSearch, true, (r: Registration) => r.status == q.filterStatus.status, k2);
    } else {
      FilterWhen(afterSearch, false, (r: Registration) => true, k2);
    }
    FilterThen(rs, k1, k2, k12);
    FilterWhen(afterStatus, DateFilterOn(q), r => InDateRange(r, q.startDate, q.endDate), k3);
    FilterThen(rs, k12, k3, r => Kept(r, q));
  }

  /** The table keeps exactly the records that meet every active filter,
      in their original order. */
  lemma FilteredSpec(rs: seq<Registration>, q: Query)
    ensures forall r :: r in Filtered(rs, q) <==> r in rs && Kept(r, q)
    ensures IsSubsequence(Filtered(rs, q), rs)
  {
    FilteredIsKept(rs, q);
    FilterIsSubsequence(rs, r => Kept(r, q));
    FilterMembers(rs, r => Kept(r, q));
  }

  /** With a status selected and no other filter, the table is exactly the
      records of that status. */
  lemma StatusFilterExact(rs: seq<Registration>, q: Query)
    requires q.search == [] && !DateFilterOn(q) && q.filterStatus.Only?
    ensures Filtered(rs, q) == Filter(rs, (r: Registration) => r.status == q.filterStatus.status)
  {
  }

  /** With no search, no status and no date range every record is shown. */
  lemma NoFilterKeepsAll(rs: seq<Registration>, q: Query)
    requires q.search == [] && q.filterStatus.All? && !DateFilterOn(q)
    ensures Filtered(rs, q) == rs
  {
  }

  /** Under a non-empty search every record shown matches it, either on the
      lower-cased name/email/profession or on the raw id/ticket text. */
  lemma SearchMatches(rs: seq<Registration>, q: Query, r: Registration)
    requires q.search != [] && r in Filtered(rs, q)
    ensures MatchesText(r, q.search) || MatchesRaw(r, q.search)
  {
    FilteredSpec(rs, q);
  }

  /** Under an active date range every record shown has a call date within
      the inclusive bounds; records without one are dropped. */
  lemma DateRangeBounds(rs: seq<Registration>, q: Query, r: Registration)
    requires DateFilterOn(q) && r in Filtered(rs, q)
    ensures r.callDateTime.Some?
    ensures q.startDate.startOfDay <= r.callDateTime.value <= q.endDate.endOfDay
  {
    FilteredSpec(rs, q);
  }

  /** A record without a ticket number matches the search "undefined". */
  lemma MissingTicketMatchesUndefined(r: Registration)
    requires r.ticketNo.None?
    ensures MatchesSearch(r, "undefined")
  {
    assert OccursAt(TicketText(r.ticketNo), "undefined", 0);
  }

  /** The id is matched as typed: upper-case letters in the search do not
      find a lower-case id, while the name, email and profession ignore case. */
  lemma IdMatchIsCaseSensitive()
    ensures var r := Registration("abc", Some(7), "", "", None, None, None, None, None, None, None, None, None,
                                   None, None, None, None, Pending, false);
            MatchesSearch(r, "abc") && !MatchesSearch(r, "ABC")
  {
    var r := Registration("abc", Some(7), "", "", None, None, None, None, None, None, None, None, None,
                          None, None, None, None, Pending, false);
    assert OccursAt(r.id, "abc", 0);
    assert Lower("ABC") == "abc";
    assert TicketText(Some(7)) == "7";
  }

  /** On name, email and profession the search ignores the case of what
      was typed. */
  lemma SearchTextIgnoresCase(r: Registration, search: string)
    ensures MatchesText(r, search) <==> MatchesText(r, Lower(search))
  {
    LowerIdempotent(search);
  }

  // ---------------------------------------------------------------------
  // Sorting

  /** The sortable columns of the table. */
  datatype SortKey = TicketNo | FullName | Email | CurrentProfession | Institution | StatusColumn | IsExpiredColumn

  /** A cell as the comparator sees it: a string, a number, or `undefined`. */
  datatype Cell = Text(s: string) | Number(n: int) | Undefined

  /** `r[sortKey]`: only an absent optional field is `undefined`; the ticket
      number and the expiry flag are numbers, the rest strings. */
  function CellOf(r: Registration, key: SortKey): (c: Cell)
    ensures c.Undefined? <==> || (key == TicketNo && r.ticketNo.None?)
                              || (key == CurrentProfession && r.currentProfession.None?)
                              || (key == Institution && r.institution.None?)
    ensures c.Number? <==> (key == TicketNo && r.ticketNo.Some?) || key == IsExpiredColumn
  {
    match key
    case TicketNo => if r.ticketNo.Some? then Number(r.ticketNo.value) else Undefined
    case FullName => Text(r.fullName)
    case Email => Text(r.email)
    case CurrentProfession => if r.currentProfession.Some? then Text(r.currentProfession.value) else Undefined
    case Institution => if r.institution.Some? then Text(r.institution.value) else Undefined
    case StatusColumn => Text(StatusName(r.status))
    case IsExpiredColumn => Number(if r.isExpired then 1 else 0)
  }

  /** The comparator's result for (a, b) is not positive: `localeLe(x, y)`
      stands for `x.localeCompare(y) <= 0` when both are strings, numbers
      compare by subtraction, and a comparison with `undefined` is NaN, which
      sorting treats as "equal". */
  function CellLe(localeLe: (string, string) -> bool, a: Cell, b: Cell): (le: bool)
    ensures a.Undefined? || b.Undefined? ==> le
    ensures Total(localeLe) && a == b ==> le
  {
    match (a, b)
    case (Text(x), Text(y)) => localeLe(x, y)
    case (Number(x), Number(y)) => x <= y
    case _ => true
  }

  /** May `a` come before `b` in the table sorted by `key`? Descending order
      swaps the comparator's arguments. */
  function RowLe(localeLe: (string, string) -> bool, key: SortKey, asc: bool): (le: (Registration, Registration) -> bool)
    ensures forall a, b :: CellOf(a, key).Undefined? ==> le(a, b) && le(b, a)
  {
    (a: Registration, b: Registration) =>
      if asc then CellLe(localeLe, CellOf(a, key), CellOf(b, key))
      else CellLe(localeLe, CellOf(b, key), CellOf(a, key))
  }

  /** `sorted`: a stable sort of a copy of the filtered rows, which holds
      the same rows. */
  function Sorted(filtered: seq<Registration>, localeLe: (string, string) -> bool, key: SortKey, asc: bool): (r: seq<Registration>)
    ensures |r| == |filtered| && multiset(r) == multiset(filtered)
  {
    InsertionSort(filtered, RowLe(localeLe, key, asc))
  }

  lemma RowLeTotal(localeLe: (string, string) -> bool, key: SortKey, asc: bool)
    requires Total(localeLe)
    ensures Total(RowLe(localeLe, key, asc))
  {
    var le := RowLe(localeLe, key, asc);
    forall a: Registration, b: Registration
      ensures le(a, b) || le(b, a)
    {
      var x, y := CellOf(a, key), CellOf(b, key);
      assert CellLe(localeLe, x, y) || CellLe(localeLe, y, x);
    }
  }

  /** The sorted rows are a permutation of the filtered ones; neighbours are
      in ascending comparator order, or descending when `asc` is false. */
  lemma SortedSpec(filtered: seq<Registration>, localeLe: (string, string) -> bool, key: SortKey, asc: bool)
    requires Total(localeLe)
    ensures var r := Sorted(filtered, localeLe, key, asc);
      && multiset(r) == multiset(filtered)
      && forall i :: 0 <= i < |r| - 1 ==>
           if asc then CellLe(localeLe, CellOf(r[i], key), CellOf(r[i + 1], key))
           else CellLe(localeLe, CellOf(r[i + 1], key), CellOf(r[i], key))
  {
    RowLeTotal(localeLe, key, asc);
    var r := Sorted(filtered, localeLe, key, asc);
    assert AdjacentSorted(r, RowLe(localeLe, key, asc));
  }

  /** Rows with equal keys keep their input order in both directions, so
      the descending table is not the ascending one reversed. */
  lemma DescendingKeepsTies(localeLe: (string, string) -> bool)
    ensures var a := Registration("a", Some(5), "Ann", "", None, None, None, None, None, None, None, None, None,
                                   None, None, None, None, Pending, false);
            var b := a.(id := "b", fullName := "Bob");
            && Sorted([a, b], localeLe, TicketNo, true) == [a, b]
            && Sorted([a, b], localeLe, TicketNo, false) == [a, b]
  {
    var a := Registration("a", Some(5), "Ann", "", None, None, None, None, None, None, None, None, None,
                          None, None, None, None, Pending, false);
    var b := a.(id := "b", fullName := "Bob");
    assert [a, b][1..] == [b];
    assert InsertionSort([b], RowLe(localeLe, TicketNo, true)) == [b];
    assert InsertionSort([b], RowLe(localeLe, TicketNo, false)) == [b];
  }

  // ---------------------------------------------------------------------
  // Pagination

  function Min(a: int, b: int): int { if a <= b then a else b }

  /** Index of the first row of a page. */
  function PageStart(page: int, perPage: int): int
  {
    (page - 1) * perPage
  }

  /** `paginated`: `sorted.slice(start, start + perPage)`. */
  function Paginated<T>(s: seq<T>, page: int, perPage: int): (r: seq<T>)
    requires page >= 1 && perPage >= 1
    ensures |r| <= perPage
    ensures PageStart(page, perPage) >= |s| ==> r == []
    ensures PageStart(page, perPage) < |s| ==> |r| == Min(perPage, |s| - PageStart(page, perPage))
    ensures forall k :: 0 <= k < |r| ==> PageStart(page, perPage) + k < |s| && r[k] == s[PageStart(page, perPage) + k]
  {
    var start := PageStart(page, perPage);
    assert start >= 0 by { assert page - 1 >= 0; }
    if start >= |s| then [] else s[start..Min(start + perPage, |s|)]
  }

  /** `Math.ceil(len / perPage)`. */
  function TotalPages(len: nat, perPage: int): (t: nat)
    requires perPage >= 1
    ensures t * perPage >= len
    ensures t > 0 ==> (t - 1) * perPage < len
  {
    var t := (len + perPage - 1) / perPage;
    assert t * perPage + (len + perPage - 1) % perPage == len + perPage - 1;
    t
  }

  /** The "Next" button is disabled on the last page and beyond: it is
      enabled exactly when a page follows the current one. */
  function NextDisabled(page: int, totalPages: int): (b: bool)
    ensures !b <==> page + 1 <= totalPages
  {
    page >= totalPages
  }

  /** The "Previous" button is disabled on the first page: from a valid page
      it is enabled exactly when a page precedes it. */
  function PreviousDisabled(page: int): (b: bool)
    ensures page >= 1 ==> (!b <==> page - 1 >= 1)
  {
    page == 1
  }

  lemma MulMonotone(a: int, b: int, n: int)
    requires a <= b && n >= 0
    ensures a * n <= b * n
  {
    assert b * n - a * n == (b - a) * n;
  }

  /** A page has rows exactly when its number is at most the page count. */
  lemma PageNonEmptyIff<T>(s: seq<T>, page: int, perPage: int)
    requires page >= 1 && perPage >= 1
    ensures Paginated(s, page, perPage) != [] <==> page <= TotalPages(|s|, perPage)
  {
    var t := TotalPages(|s|, perPage);
    if page <= t {
      MulMonotone(page - 1, t - 1, perPage);
    } else {
      MulMonotone(t, page - 1, perPage);
    }
  }

  /** While "Next" is enabled the next page has rows. */
  lemma NextEnabledHasRows<T>(s: seq<T>, page: int, perPage: int)
    requires page >= 1 && perPage >= 1
    requires !NextDisabled(page, TotalPages(|s|, perPage))
    ensures Paginated(s, page + 1, perPage) != []
  {
    PageNonEmptyIff(s, page + 1, perPage);
  }

  /** Every row appears on page `i / perPage + 1` at position `i % perPage`. */
  lemma RowOnItsPage<T>(s: seq<T>, perPage: int, i: int)
    requires perPage >= 1 && 0 <= i < |s|
    ensures var p := Paginated(s, i / perPage + 1, perPage);
            i % perPage < |p| && p[i % perPage] == s[i]
  {
    var page := i / perPage + 1;
    assert PageStart(page, perPage) + i % perPage == i;
  }

  /** The "Showing from to to" counter under the table: it never counts
      past the last record, and starts at 1 or later when there are records. */
  function ShowingRange(len: int, page: int, perPage: int): (r: (int, int))
    ensures r.0 <= len && r.1 <= len
    ensures page >= 1 && perPage >= 1 && len >= 1 ==> r.0 >= 1
  {
    (Min((page - 1) * perPage + 1, len), Min(page * perPage, len))
  }

  /** On a page with rows the counter names its first and last row (1-based). */
  lemma ShowingMatchesPage<T>(s: seq<T>, page: int, perPage: int)
    requires page >= 1 && perPage >= 1
    requires Paginated(s, page, perPage) != []
    ensures var (from, to) := ShowingRange(|s|, page, perPage);
            from == PageStart(page, perPage) + 1 && to - from + 1 == |Paginated(s, page, perPage)|
  {
    assert page * perPage == PageStart(page, perPage) + perPage;
  }

  // ---------------------------------------------------------------------
  // Status counts

  /** The number of records with status `st`, as the cards show it. */
  function CountStatus(rs: seq<Registration>, st: Status): (n: nat)
    ensures n <= |rs|
  {
    Count(rs, (r: Registration) => r.status == st)
  }

  /** Every record is counted under exactly one status. */
  lemma {:induction false} StatusCountsSum(rs: seq<Registration>)
    ensures CountStatus(rs, Upcoming) + CountStatus(rs, Pending) + CountStatus(rs, Completed) == |rs|
    decreases |rs|
  {
    if rs != [] {
      StatusCountsSum(rs[1..]);
    }
  }

  /** One slice of the status pie chart. */
  datatype Slice = Slice(name: string, value: nat)

  function SliceSum(ds: seq<Slice>): nat
  {
    if ds == [] then 0 else ds[0].value + SliceSum(ds[1..])
  }

  function SliceShown(d: Slice): bool { d.value > 0 }

  /** `statusData`: the three counts, empty slices dropped. */
  function StatusData(rs: seq<Registration>): (ds: seq<Slice>)
    ensures |ds| <= 3
  {
    Filter([Slice("Upcoming", CountStatus(rs, Upcoming)),
            Slice("Pending", CountStatus(rs, Pending)),
            Slice("Completed", CountStatus(rs, Completed))],
           SliceShown)
  }

  /** Dropping empty slices does not change the total. */
  lemma {:induction false} SliceSumDropsEmpty(ds: seq<Slice>)
    ensures SliceSum(Filter(ds, SliceShown)) == SliceSum(ds)
    decreases |ds|
  {
    if ds != [] {
      SliceSumDropsEmpty(ds[1..]);
      if SliceShown(ds[0]) {
        assert Filter(ds, SliceShown)[1..] == Filter(ds[1..], SliceShown);
      }
    }
  }

  /** The chart's slices are non-empty and together cover every record. */
  lemma StatusDataSpec(rs: seq<Registration>)
    ensures forall i :: 0 <= i < |StatusData(rs)| ==> StatusData(rs)[i].value > 0
    ensures SliceSum(StatusData(rs)) == |rs|
  {
    var ds := [Slice("Upcoming", CountStatus(rs, Upcoming)),
               Slice("Pending", CountStatus(rs, Pending)),
               Slice("Completed", CountStatus(rs, Completed))];
    StatusCountsSum(rs);
    SliceSumDropsEmpty(ds);
    FilterMembers(ds, SliceShown);
    assert SliceSum(ds) == CountStatus(rs, Upcoming) + CountStatus(rs, Pending) + CountStatus(rs, Completed) by {
      assert ds[1..][1..][1..] == [];
      assert SliceSum(ds[1..][1..]) == ds[2].value;
      assert SliceSum(ds[1..]) == ds[1].value + ds[2].value;
    }
    forall i | 0 <= i < |StatusData(rs)|
      ensures StatusData(rs)[i].value > 0
    {
      assert StatusData(rs)[i] in StatusData(rs);
    }
  }
}
