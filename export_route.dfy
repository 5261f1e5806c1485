// The export endpoint: `GET /api/export?format=…&ids=…` picks records from
// the store and answers with a spreadsheet, a PDF report, or an error.

module ExportRoute {
  import opened Records
  import opened Seqs
  import opened Text

  // ---------------------------------------------------------------------
  // Which records are exported

  /** `ids?.split(',') || []`: a missing parameter gives no ids. */
  function RequestedIds(ids: Option<string>): (r: seq<string>)
    ensures ids.None? ==> r == []
    ensures ids.Some? ==> |r| >= 1 && Join(r, ',') == ids.value
    ensures forall k :: 0 <= k < |r| ==> ',' !in r[k]
  {
    if ids.None? then [] else Split(ids.value, ',')
  }

  /** The records found by the route: the whole store for `ids=all`,
      otherwise the stored records whose id was requested, in store order. */
  function Selected(store: seq<Registration>, ids: Option<string>): (r: seq<Registration>)
    ensures ids == Some("all") ==> r == store
    ensures ids != Some("all") ==> forall x :: x in r <==> x in store && x.id in RequestedIds(ids)
    ensures ids.None? ==> r == []
  {
    if ids == Some("all") then store
    else
      var wanted := RequestedIds(ids);
      var requested := (x: Registration) => x.id in wanted;
      FilterMembers(store, requested);
      assert ids.None? ==> Filter(store, requested) == [] by {
        if ids.None? {
          FilterDropsAll(store, requested);
        }
      }
      Filter(store, requested)
  }

  /** The selection keeps the store's order. */
  lemma SelectedInStoreOrder(store: seq<Registration>, ids: Option<string>)
    ensures IsSubsequence(Selected(store, ids), store)
  {
    if ids != Some("all") {
      var wanted := RequestedIds(ids);
      FilterIsSubsequence(store, (x: Registration) => x.id in wanted);
    } else {
      SubsequenceOfItself(store);
    }
  }

  lemma {:induction false} SubsequenceOfItself<T>(s: seq<T>)
    ensures IsSubsequence(s, s)
    decreases |s|
  {
    if s != [] {
      SubsequenceOfItself(s[1..]);
    }
  }

  /** The dashboard sends the chosen ids joined by commas; ids never hold a
      comma, so the route gets back exactly the ids that were chosen. */
  lemma JoinedIdsRoundTrip(store: seq<Registration>, chosen: seq<string>)
    requires |chosen| >= 1
    requires forall k :: 0 <= k < |chosen| ==> ',' !in chosen[k]
    requires Join(chosen, ',') != "all"
    ensures RequestedIds(Some(Join(chosen, ','))) == chosen
    ensures forall x :: x in Selected(store, Some(Join(chosen, ','))) <==> x in store && x.id in chosen
  {
    SplitJoin(chosen, ',');
  }

  // ---------------------------------------------------------------------
  // The PDF text

  const ReportTitle: string := "Training Registrations Report"

  /** The four lines written for record `reg` at 0-based position `i`. */
  predicate BlockAt(lines: seq<string>, reg: Registration, i: nat)
    requires 4 + 4 * i < |lines|
  {
    && lines[1 + 4 * i] == "--- Registration " + IntToString(i + 1) + " ---"
    && lines[2 + 4 * i] == "Full Name: " + reg.fullName
    && lines[3 + 4 * i] == "Email: " + reg.email
    && lines[4 + 4 * i] == "Status: " + StatusName(reg.status)
  }

  /** The text of the report: the title, then a numbered block of four
      lines per record, in selection order. */
  predicate IsReport(lines: seq<string>, regs: seq<Registration>)
  {
    && |lines| == 1 + 4 * |regs|
    && lines[0] == ReportTitle
    && forall i :: 0 <= i < |regs| ==> BlockAt(lines, regs[i], i)
  }

  /** The report's text is determined by the records. */
  lemma ReportUnique(a: seq<string>, b: seq<string>, regs: seq<Registration>)
    requires IsReport(a, regs) && IsReport(b, regs)
    ensures a == b
  {
    forall k | 0 <= k < |a|
      ensures a[k] == b[k]
    {
      if k > 0 {
        var i := (k - 1) / 4;
        assert BlockAt(a, regs[i], i) && BlockAt(b, regs[i], i);
      }
    }
  }

  /** Different records get different block headings. */
  lemma BlockHeadingsDistinct(lines: seq<string>, regs: seq<Registration>, i: int, j: int)
    requires IsReport(lines, regs)
    requires 0 <= i < |regs| && 0 <= j < |regs| && i != j
    ensures lines[1 + 4 * i] != lines[1 + 4 * j]
  {
    assert BlockAt(lines, regs[i], i) && BlockAt(lines, regs[j], j);
    if lines[1 + 4 * i] == lines[1 + 4 * j] {
      InfixCancel("--- Registration ", IntToString(i + 1), IntToString(j + 1), " ---");
      IntToStringInjective(i + 1, j + 1);
    }
  }

  /** Two status lines of the report are equal exactly when the two records
      have the same status. */
  lemma StatusLinesTellStatuses(lines: seq<string>, regs: seq<Registration>, i: int, j: int)
    requires IsReport(lines, regs)
    requires 0 <= i < |regs| && 0 <= j < |regs|
    ensures lines[4 + 4 * i] == lines[4 + 4 * j] <==> regs[i].status == regs[j].status
  {
    assert BlockAt(lines, regs[i], i) && BlockAt(lines, regs[j], j);
    if lines[4 + 4 * i] == lines[4 + 4 * j] {
      InfixCancel("Status: ", StatusName(regs[i].status), StatusName(regs[j].status), "");
      StatusNameInjective(regs[i].status, regs[j].status);
    }
  }

  /** The text between a fixed prefix and a fixed suffix is determined. */
  lemma InfixCancel(prefix: string, x: string, y: string, suffix: string)
    requires prefix + x + suffix == prefix + y + suffix
    ensures x == y
  {
    var l := prefix + x + suffix;
    assert x == l[|prefix|..|prefix| + |x|];
    assert y == l[|prefix|..|prefix| + |y|];
  }

  /** The `forEach` that writes the report, one record at a time. */
  method BuildReport(regs: seq<Registration>) returns (lines: seq<string>)
    ensures IsReport(lines, regs)
  {
    lines := [ReportTitle];
    var i := 0;
    while i < |regs|
      invariant 0 <= i <= |regs|
      invariant |lines| == 1 + 4 * i && lines[0] == ReportTitle
      invariant forall k :: 0 <= k < i ==> BlockAt(lines, regs[k], k)
    {
      var reg := regs[i];
      var next := lines + ["--- Registration " + IntToString(i + 1) + " ---",
                           "Full Name: " + reg.fullName,
                           "Email: " + reg.email,
                           "Status: " + StatusName(reg.status)];
      assert forall k :: 0 <= k < i ==> BlockAt(next, regs[k], k) by {
        forall k | 0 <= k < i
          ensures BlockAt(next, regs[k], k)
        {
          assert BlockAt(lines, regs[k], k);
        }
      }
      lines := next;
      i := i + 1;
    }
  }

  // ---------------------------------------------------------------------
  // Responses

  /** The payload of a file download. */
  datatype Body = Sheet(rows: seq<Registration>) | PdfText(lines: seq<string>)

  /** What the route answers: a JSON error or a file with its headers. */
  datatype Response =
    | JsonError(status: int, error: string)
    | File(status: int, contentType: string, disposition: string, body: Body)

  const XlsxType: string := "application/vnd.openxmlformats-officedocument.spreadsheetml.sheet"
  const XlsxDisposition: string := "attachment; filename=\"registrations.xlsx\""
  const PdfType: string := "application/pdf"
  const PdfDisposition: string := "attachment; filename=\"registrations.pdf\""

  /** The handler. `storeFails` stands for the store's `find` throwing;
      it is looked at before the format, so a failing store answers 500
      even for an unknown format. An empty selection is exported as is. */
  method Get(format: Option<string>, ids: Option<string>, store: seq<Registration>, storeFails: bool)
    returns (resp: Response)
    ensures storeFails ==> resp == JsonError(500, "Failed to fetch data for export")
    ensures !storeFails && format == Some("excel") ==>
              resp == File(200, XlsxType, XlsxDisposition, Sheet(Selected(store, ids)))
    ensures !storeFails && format == Some("pdf") ==>
              && resp.File? && resp.status == 200
              && resp.contentType == PdfType && resp.disposition == PdfDisposition
              && resp.body.PdfText? && IsReport(resp.body.lines, Selected(store, ids))
    ensures !storeFails && format != Some("excel") && format != Some("pdf") ==>
              resp == JsonError(400, "Invalid format")
  {
    if storeFails {
      return JsonError(500, "Failed to fetch data for export");
    }
    var registrations := Selected(store, ids);
    if format == Some("excel") {
      return File(200, XlsxType, XlsxDisposition, Sheet(registrations));
    }
    if format == Some("pdf") {
      var lines := BuildReport(registrations);
      return File(200, PdfType, PdfDisposition, PdfText(lines));
    }
    return JsonError(400, "Invalid format");
  }
}
