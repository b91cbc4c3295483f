/** `get_tables`, `extract_tables` and the constructor of `ExtractTabel`: the PDF is reduced to
    what the extractor reads from it, each listed table page is turned into a table with its
    corrected column names, and the tables are collected by title. */
module Extraction {
  import opened Results
  import opened Text
  import opened OrderedMaps
  import opened Summary
  import opened Columns

  /** A table as the table extractor returns it: the number of columns it found and the rows
      of cells under the header, in order. */
  datatype Grid = Grid(width: nat, rows: seq<seq<string>>)

  /** The two kinds of table the extractor tells apart. */
  datatype Kind = Dmpl | Dfs

  /** A table with its column names set and its leading header rows dropped. */
  datatype Table = Table(kind: Kind, columns: seq<string>, rows: seq<seq<string>>)

  /** What the extractor reads from the PDF, page by page.
      - `summarySubtitles`: the subtitle texts between "DFs Individuais" and "Pareceres e
        Declarações" on page 1, or None when either marker is missing or repeated;
      - `tableTitle(p)`: the single table-title text of page p, or None when there is none,
        several, or no page p;
      - `columnHeaders(p)`: the column-header texts of page p, or None when there is no page p;
      - `grids(p)`: the tables the table extractor finds on page p, or None when it fails. */
  datatype Document = Document(
    summarySubtitles: Option<seq<string>>,
    tableTitle: nat -> Option<string>,
    columnHeaders: nat -> Option<seq<string>>,
    grids: nat -> Option<seq<Grid>>)

  /** `'DMPL' in title` picks the kind. */
  function KindOf(title: string): Kind
  {
    if Contains(title, "DMPL") then Dmpl else Dfs
  }

  /** The number of header rows `get_tables` drops for each kind. */
  function RowsDropped(kind: Kind): nat
  {
    if kind == Dmpl then 2 else 1
  }

  /** The column names for a table of `kind` on `page`: a DMPL table always takes the headers
      of the reference page, any other table those of its own page. */
  function ColumnNames(doc: Document, kind: Kind, page: nat): (r: Result<seq<string>>)
    ensures r.Ok? ==> |r.value| == (if kind == Dmpl then 8 else 5)
  {
    var source := if kind == Dmpl then DmplReferencePage else page;
    match doc.columnHeaders(source)
    case None => Err(ElementLookupError)
    case Some(headers) => if kind == Dmpl then DmplColumns(headers) else DfsColumns(headers)
  }

  /** `get_tables(page)`: the title picks the kind; the first table found on the page gets the
      kind's column names, which must match its width, and loses its header rows. */
  function GetTable(doc: Document, page: nat): (r: Result<Table>)
    ensures r.Ok? ==> doc.tableTitle(page).Some? && doc.grids(page).Some? && |doc.grids(page).value| > 0
    ensures r.Ok? ==> r.value.kind == KindOf(doc.tableTitle(page).value)
    ensures r.Ok? ==>
      |r.value.columns| == doc.grids(page).value[0].width == (if r.value.kind == Dmpl then 8 else 5)
    ensures r.Ok? ==>
      |doc.grids(page).value[0].rows| >= RowsDropped(r.value.kind) &&
      r.value.rows == doc.grids(page).value[0].rows[RowsDropped(r.value.kind)..]
  {
    match doc.tableTitle(page)
    case None => Err(ElementLookupError)
    case Some(title) =>
      var kind := KindOf(title);
      match doc.grids(page)
      case None => Err(ExtractorError)
      case Some(grids) =>
        if |grids| == 0 then Err(IndexError)
        else
          match ColumnNames(doc, kind, page)
          case Err(e) => Err(e)
          case Ok(columns) =>
            var grid := grids[0];
            if |columns| != grid.width then Err(ValueError)
            else if kind == Dmpl then
              if |grid.rows| < 2 then Err(IndexError) else Ok(Table(Dmpl, columns, grid.rows[2..]))
            else
              if |grid.rows| < 1 then Err(KeyError) else Ok(Table(Dfs, columns, grid.rows[1..]))
  }

  /** The title decides the kind: DMPL exactly when "DMPL" occurs somewhere in it; a DMPL table
      has the reference page's columns and loses two rows, any other table has its own page's
      columns and loses one. */
  lemma KindDispatch(doc: Document, page: nat)
    requires GetTable(doc, page).Ok?
    ensures var title, t := doc.tableTitle(page).value, GetTable(doc, page).value;
      && (t.kind == Dmpl <==> exists i :: OccursAt(title, "DMPL", i))
      && (t.kind == Dmpl ==>
            doc.columnHeaders(DmplReferencePage).Some? &&
            t.columns == DmplColumns(doc.columnHeaders(DmplReferencePage).value).value)
      && (t.kind == Dfs ==>
            doc.columnHeaders(page).Some? &&
            t.columns == DfsColumns(doc.columnHeaders(page).value).value)
  {
    ContainsIsOccurrence(doc.tableTitle(page).value, "DMPL");
  }

  /** The page a DMPL table is on plays no part in its column names. */
  lemma DmplColumnsIgnorePage(doc: Document, p: nat, q: nat)
    requires GetTable(doc, p).Ok? && GetTable(doc, p).value.kind == Dmpl
    requires GetTable(doc, q).Ok? && GetTable(doc, q).value.kind == Dmpl
    ensures GetTable(doc, p).value.columns == GetTable(doc, q).value.columns
  {
    KindDispatch(doc, p);
    KindDispatch(doc, q);
  }

  /** A table comes out exactly when every step finds what it needs: a title, a first table, the
      column names, as many columns as names, and the header rows to drop. */
  lemma GetTableSucceeds(doc: Document, page: nat)
    ensures GetTable(doc, page).Ok? <==>
      && doc.tableTitle(page).Some?
      && doc.grids(page).Some? && |doc.grids(page).value| > 0
      && var kind := KindOf(doc.tableTitle(page).value);
         && ColumnNames(doc, kind, page).Ok?
         && |ColumnNames(doc, kind, page).value| == doc.grids(page).value[0].width
         && |doc.grids(page).value[0].rows| >= RowsDropped(kind)
  {
  }

  // ---------------------------------------------------------------------------
  // extract_tables

  /** The entry a page adds to the result: its title and its table, or nothing when the page
      raises. */
  function TryPage(doc: Document, page: nat): (r: Option<(string, Table)>)
    ensures r.Some? <==> GetTable(doc, page).Ok?
    ensures r.Some? ==> Some(r.value.0) == doc.tableTitle(page) && r.value.1 == GetTable(doc, page).value
  {
    match GetTable(doc, page)
    case Err(_) => None
    case Ok(t) => Some((doc.tableTitle(page).value, t))
  }

  /** Each page's outcome, in page order. */
  function Outcomes(doc: Document, pages: seq<nat>): (r: seq<Option<(string, Table)>>)
    ensures |r| == |pages|
  {
    if pages == [] then [] else Outcomes(doc, pages[..|pages| - 1]) + [TryPage(doc, pages[|pages| - 1])]
  }

  /** The outcome of page i is that page's own. */
  lemma {:induction false} OutcomeOfPage(doc: Document, pages: seq<nat>, i: nat)
    requires i < |pages|
    ensures Outcomes(doc, pages)[i] == TryPage(doc, pages[i])
  {
    if i < |pages| - 1 {
      OutcomeOfPage(doc, pages[..|pages| - 1], i);
    }
  }

  /** The entries of the outcomes that are not failures, in order. */
  function Stored(outcomes: seq<Option<(string, Table)>>): seq<(string, Table)>
  {
    if outcomes == [] then []
    else
      Stored(outcomes[..|outcomes| - 1]) +
      match outcomes[|outcomes| - 1] case None => [] case Some(e) => [e]
  }

  /** The dictionary the loop of `extract_tables` builds from the pages' outcomes. */
  function Collect(outcomes: seq<Option<(string, Table)>>): (r: OrderedMap<Table>)
    ensures Valid(r)
  {
    PutAll(Stored(outcomes))
  }

  /** A failed outcome leaves the dictionary as it was. */
  lemma FailureSkipped(outcomes: seq<Option<(string, Table)>>)
    ensures Collect(outcomes + [None]) == Collect(outcomes)
  {
    assert (outcomes + [None])[..|outcomes|] == outcomes;
    assert Stored(outcomes + [None]) == Stored(outcomes);
  }

  /** A successful outcome stores its table under its title; a title already present keeps its
      place in the key order and takes the new table. */
  lemma SuccessStored(outcomes: seq<Option<(string, Table)>>, title: string, t: Table)
    ensures Collect(outcomes + [Some((title, t))]) == Put(Collect(outcomes), title, t)
    ensures title in Collect(outcomes).values ==>
      Collect(outcomes + [Some((title, t))]).keys == Collect(outcomes).keys
  {
    var s := Stored(outcomes);
    assert (outcomes + [Some((title, t))])[..|outcomes|] == outcomes;
    assert Stored(outcomes + [Some((title, t))]) == s + [(title, t)];
    PutAllSnoc(s, title, t);
    if title in Collect(outcomes).values {
      PutAllDomain(s);
      OverwriteKeepsOrder(s, title, t);
    }
  }

  /** A title is stored exactly when some outcome succeeds with it. */
  lemma {:induction false} StoredTitles(outcomes: seq<Option<(string, Table)>>)
    ensures forall k :: k in Firsts(Stored(outcomes)) <==>
      exists i | 0 <= i < |outcomes| :: outcomes[i].Some? && outcomes[i].value.0 == k
  {
    if outcomes != [] {
      var front, last := outcomes[..|outcomes| - 1], outcomes[|outcomes| - 1];
      StoredTitles(front);
      var s := Stored(front);
      var added: seq<(string, Table)> := match last case None => [] case Some(e) => [e];
      assert Stored(outcomes) == s + added;
      assert Firsts(Stored(outcomes)) == Firsts(s) + Firsts(added);
      forall k ensures k in Firsts(Stored(outcomes)) <==>
        exists i | 0 <= i < |outcomes| :: outcomes[i].Some? && outcomes[i].value.0 == k
      {
        if k in Firsts(Stored(outcomes)) {
          if k in Firsts(s) {
            var i :| 0 <= i < |front| && front[i].Some? && front[i].value.0 == k;
            assert outcomes[i] == front[i];
          } else {
            assert k in Firsts(added);
          }
        }
        if exists i | 0 <= i < |outcomes| :: outcomes[i].Some? && outcomes[i].value.0 == k {
          var i :| 0 <= i < |outcomes| && outcomes[i].Some? && outcomes[i].value.0 == k;
          if i < |front| {
            assert front[i] == outcomes[i];
          } else {
            assert Firsts(added) == [k];
          }
        }
      }
    }
  }

  /** The table stored under a title is the one of the last outcome that succeeds with it. */
  lemma {:induction false} CollectLatest(outcomes: seq<Option<(string, Table)>>, i: nat)
    requires i < |outcomes| && outcomes[i].Some?
    requires forall j | i < j < |outcomes| :: outcomes[j].Some? ==> outcomes[j].value.0 != outcomes[i].value.0
    ensures outcomes[i].value.0 in Collect(outcomes).values
    ensures Collect(outcomes).values[outcomes[i].value.0] == outcomes[i].value.1
  {
    var front, last := outcomes[..|outcomes| - 1], outcomes[|outcomes| - 1];
    assert outcomes == front + [last];
    if i == |outcomes| - 1 {
      SuccessStored(front, last.value.0, last.value.1);
    } else {
      assert front[i] == outcomes[i];
      assert forall j | i < j < |front| :: front[j] == outcomes[j];
      CollectLatest(front, i);
      var k := outcomes[i].value.0;
      if last.Some? {
        assert last.value.0 != k;
        SuccessStored(front, last.value.0, last.value.1);
      } else {
        FailureSkipped(front);
      }
    }
  }

  /** The dictionary `extract_tables` builds over `pages`. */
  function ExtractAll(doc: Document, pages: seq<nat>): (r: OrderedMap<Table>)
    ensures Valid(r)
  {
    Collect(Outcomes(doc, pages))
  }

  /** The result's keys are the titles of the pages that succeed, each once, in the order of
      the first page that carries it. */
  lemma ExtractAllKeys(doc: Document, pages: seq<nat>)
    ensures ExtractAll(doc, pages).keys == Dedup(Firsts(Stored(Outcomes(doc, pages))))
    ensures forall k :: k in ExtractAll(doc, pages).values <==>
      exists i | 0 <= i < |pages| :: GetTable(doc, pages[i]).Ok? && doc.tableTitle(pages[i]) == Some(k)
  {
    var outcomes := Outcomes(doc, pages);
    PutAllKeys(Stored(outcomes));
    PutAllDomain(Stored(outcomes));
    StoredTitles(outcomes);
    forall i | 0 <= i < |pages| ensures outcomes[i] == TryPage(doc, pages[i]) {
      OutcomeOfPage(doc, pages, i);
    }
  }

  /** The table stored under a title is the one of the last page that succeeds with it. */
  lemma ExtractAllLatest(doc: Document, pages: seq<nat>, i: nat)
    requires i < |pages| && GetTable(doc, pages[i]).Ok?
    requires forall j | i < j < |pages| ::
      GetTable(doc, pages[j]).Ok? ==> doc.tableTitle(pages[j]) != doc.tableTitle(pages[i])
    ensures doc.tableTitle(pages[i]).value in ExtractAll(doc, pages).values
    ensures ExtractAll(doc, pages).values[doc.tableTitle(pages[i]).value] == GetTable(doc, pages[i]).value
  {
    var outcomes := Outcomes(doc, pages);
    forall j | 0 <= j < |pages| ensures outcomes[j] == TryPage(doc, pages[j]) {
      OutcomeOfPage(doc, pages, j);
    }
    CollectLatest(outcomes, i);
  }

  /** `_get_summary_pages` on the document: the section markers must be found. */
  function SummaryOfDocument(doc: Document): Result<OrderedMap<nat>>
  {
    match doc.summarySubtitles
    case None => Err(ElementLookupError)
    case Some(texts) => SummaryOf(texts)
  }

  /** `extract_tables`: a failure in the summary is not caught and ends the whole call. */
  function Extracted(doc: Document): (r: Result<OrderedMap<Table>>)
    ensures r.Ok? <==> SummaryOfDocument(doc).Ok?
  {
    match SummaryOfDocument(doc)
    case Err(e) => Err(e)
    case Ok(d) => Ok(ExtractAll(doc, TablePages(d)))
  }

  /** The loop of `extract_tables`: one pass over the table pages, storing each page's table
      under its title and skipping the pages that raise. */
  method CollectTables(doc: Document, pages: seq<nat>) returns (d: OrderedMap<Table>)
    ensures d == ExtractAll(doc, pages)
  {
    d := Empty();
    for i := 0 to |pages|
      invariant d == Collect(Outcomes(doc, pages[..i]))
    {
      assert pages[..i + 1][..i] == pages[..i];
      ghost var before := Outcomes(doc, pages[..i]);
      var entry := TryPage(doc, pages[i]);
      assert Outcomes(doc, pages[..i + 1]) == before + [entry];
      if entry.Some? {
        SuccessStored(before, entry.value.0, entry.value.1);
        d := Put(d, entry.value.0, entry.value.1);
      } else {
        FailureSkipped(before);
      }
    }
    assert pages[..|pages|] == pages;
  }

  /** `extract_tables`: the table pages from the summary, then the loop. */
  method ExtractTables(doc: Document) returns (r: Result<OrderedMap<Table>>)
    ensures r == Extracted(doc)
  {
    if doc.summarySubtitles.None? {
      return Err(ElementLookupError);
    }
    var summary := BuildSummary(doc.summarySubtitles.value);
    if summary.Err? {
      return Err(summary.error);
    }
    var tables := CollectTables(doc, TablePages(summary.value));
    r := Ok(tables);
  }

  /** The state an `ExtractTabel` holds once constructed. */
  datatype Extractor = Extractor(tables: OrderedMap<Table>, summaryPages: OrderedMap<nat>)

  /** `ExtractTabel(path)`: extracts the tables, then builds the summary dictionary once more
      for `get_summary_pages`; either step's uncaught failure fails the construction. */
  method Create(doc: Document) returns (r: Result<Extractor>)
    ensures r.Ok? <==> SummaryOfDocument(doc).Ok?
    ensures r.Ok? ==> r.value.summaryPages == SummaryOfDocument(doc).value
    ensures r.Ok? ==> r.value.tables == ExtractAll(doc, TablePages(r.value.summaryPages))
  {
    var tables := ExtractTables(doc);
    if tables.Err? {
      return Err(tables.error);
    }
    var summary := BuildSummary(doc.summarySubtitles.value);
    r := Ok(Extractor(tables.value, summary.value));
  }
}
