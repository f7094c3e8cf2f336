/** The two list screens: the stock status report (frontend
    StockStatusReport.jsx), with its summary, category list, search and
    "Stock In" action, and the spare parts list (frontend
    SparePartsList.jsx), with its category list, search and low-stock
    highlight. Both work on rows already fetched from the server. */
module Listings {
  import opened Prelude
  import opened Text
  import opened Sequences
  import opened Reports
  import AddStockIn

  /** A quantity below this is low stock, on both screens. */
  const LowStockThreshold: int := 10

  predicate IsLow(quantity: int) {
    quantity < LowStockThreshold
  }

  // ---------------------------------------------------------------------------
  // Stock status report: summary

  datatype Summary = Summary(totalItems: nat, totalQuantity: int, lowStockItems: nat)

  predicate LowRow(row: StatusRow) {
    IsLow(row.currentQuantity)
  }

  /** The quantity column the summary adds up. */
  function Quantities(rows: seq<StatusRow>): seq<int> {
    Map(rows, (row: StatusRow) => row.currentQuantity)
  }

  /** The summary cards, computed in one pass: the number of rows, the sum
      of the current quantities (`reduce` from 0) and the number of rows
      that are low on stock (`filter(...).length`). */
  method Summarize(rows: seq<StatusRow>) returns (s: Summary)
    ensures s.totalItems == |rows|
    ensures s.totalQuantity == Sum(Quantities(rows))
    ensures s.lowStockItems == |Filter(rows, LowRow)|
    ensures s.lowStockItems == Count(rows, LowRow) <= s.totalItems
  {
    var total := 0;
    var low := 0;
    var i := 0;
    while i < |rows|
      invariant 0 <= i <= |rows|
      invariant total == Sum(Quantities(rows[..i]))
      invariant low == Count(rows[..i], LowRow) <= i
    {
      assert rows[..i + 1] == rows[..i] + [rows[i]];
      assert Quantities(rows[..i + 1]) == Quantities(rows[..i]) + [rows[i].currentQuantity];
      SumAppend(Quantities(rows[..i]), rows[i].currentQuantity);
      CountAppend(rows[..i], rows[i], LowRow);
      total := total + rows[i].currentQuantity;
      if LowRow(rows[i]) {
        low := low + 1;
      }
      i := i + 1;
    }
    assert rows[..i] == rows;
    CountIsFilterLength(rows, LowRow);
    s := Summary(|rows|, total, low);
  }

  // ---------------------------------------------------------------------------
  // Category lists

  /** `[...new Set(values)]`: every value once, in the order of first
      occurrence. */
  method UniqueValues(values: seq<string>) returns (r: seq<string>)
    ensures NoDuplicates(r)
    ensures forall i :: 0 <= i < |r| ==> r[i] in values
    ensures forall v :: v in values ==> v in r
    ensures forall i, j :: 0 <= i < j < |r| ==> IndexOf(values, r[i]) < IndexOf(values, r[j])
  {
    r := DistinctValues(values);
    DistinctNoDuplicates(values, {});
    DistinctFirstOccurrenceOrder(values, {});
    forall v | v in values
      ensures v in r
    {
      DistinctMember(values, {}, v);
    }
  }

  function StatusCategories(rows: seq<StatusRow>): seq<string> {
    Map(rows, (row: StatusRow) => row.category)
  }

  /** The report's category drop-down: each category of the rows once, in
      order of first appearance, and nothing else. */
  method StatusReportCategories(rows: seq<StatusRow>) returns (r: seq<string>)
    ensures NoDuplicates(r)
    ensures forall i :: 0 <= i < |r| ==> r[i] in StatusCategories(rows)
    ensures forall i :: 0 <= i < |r| ==> exists k :: 0 <= k < |rows| && rows[k].category == r[i]
    ensures forall k :: 0 <= k < |rows| ==> rows[k].category in r
    ensures forall i, j :: 0 <= i < j < |r| ==> IndexOf(StatusCategories(rows), r[i]) < IndexOf(StatusCategories(rows), r[j])
  {
    var column := StatusCategories(rows);
    r := UniqueValues(column);
    forall i | 0 <= i < |r|
      ensures exists k :: 0 <= k < |rows| && rows[k].category == r[i]
    {
      var k := IndexOf(column, r[i]);
      assert 0 <= k < |rows| && rows[k].category == r[i];
    }
    forall k | 0 <= k < |rows|
      ensures rows[k].category in r
    {
      assert column[k] in column;
    }
  }

  // ---------------------------------------------------------------------------
  // Search

  /** `text.toLowerCase().includes(term.toLowerCase())`. */
  predicate MatchesSearch(text: string, term: string) {
    Contains(Lower(text), Lower(term))
  }

  /** An empty category filter matches everything; otherwise the category
      must be equal, case and all. */
  predicate MatchesCategory(category: string, filter: string) {
    filter == "" || category == filter
  }

  /** An empty search term matches every text. */
  lemma EmptyTermMatches(text: string)
    ensures MatchesSearch(text, "")
  {
    assert Lower("") == "";
  }

  /** The search does not care how the term is capitalised. */
  lemma SearchIgnoresCase(text: string, term: string)
    ensures MatchesSearch(text, term) <==> MatchesSearch(text, Lower(term))
  {
    LowerIdempotent(term);
  }

  predicate KeepStatusRow(row: StatusRow, term: string, category: string) {
    MatchesSearch(row.name, term) && MatchesCategory(row.category, category)
  }

  /** `filteredStockStatus`: the rows whose name contains the term and
      whose category passes the filter, in their original order. */
  function FilterStatus(rows: seq<StatusRow>, term: string, category: string): (r: seq<StatusRow>)
    ensures IsSubsequence(r, rows)
    ensures forall row :: row in r <==> row in rows && KeepStatusRow(row, term, category)
  {
    Filter(rows, row => KeepStatusRow(row, term, category))
  }

  /** With no search term and no category chosen, every row is shown. */
  lemma FilterStatusKeepsAll(rows: seq<StatusRow>)
    ensures FilterStatus(rows, "", "") == rows
  {
    forall i | 0 <= i < |rows|
      ensures KeepStatusRow(rows[i], "", "")
    {
      EmptyTermMatches(rows[i].name);
    }
  }

  /** Typing the term in capitals shows the same rows. */
  lemma FilterStatusIgnoresCase(rows: seq<StatusRow>, term: string, category: string)
    ensures forall row :: row in FilterStatus(rows, term, category) <==> row in FilterStatus(rows, Lower(term), category)
  {
    LowerIdempotent(term);
  }

  // ---------------------------------------------------------------------------
  // Stock status report: the "Stock In" action

  /** The path and query the action links to, before the id. */
  const StockInPrefix: string := "/stock-in/add?sparePartId="

  /** The "Stock In" link of a row: offered exactly for low-stock rows. */
  function StockInLink(row: StatusRow): (link: Option<string>)
    ensures link.Some? <==> LowRow(row)
  {
    if LowRow(row) then Some(StockInPrefix + IntText(row.id)) else None
  }

  /** `new URLSearchParams(search).get('sparePartId')` for the links this
      screen builds: the text after the prefix. */
  function SparePartIdParam(link: string): Option<string> {
    if StockInPrefix <= link then Some(link[|StockInPrefix|..]) else None
  }

  /** Following a row's "Stock In" link opens the stock-in form with that
      row's part already chosen and nothing but the quantity missing. */
  lemma StockInLinkOpensForm(row: StatusRow)
    requires LowRow(row)
    ensures SparePartIdParam(StockInLink(row).value) == Some(IntText(row.id))
    ensures AddStockIn.Prefill(AddStockIn.Initial, SparePartIdParam(StockInLink(row).value)) ==
              AddStockIn.Form(IntText(row.id), "")
    ensures AddStockIn.SparePartId !in AddStockIn.Validate(AddStockIn.Prefill(AddStockIn.Initial, SparePartIdParam(StockInLink(row).value)))
  {
    var link := StockInPrefix + IntText(row.id);
    assert link[|StockInPrefix|..] == IntText(row.id);
    AddStockIn.LinkSelectsPart(row.id);
  }

  /** The summary's low-stock count is the number of rows offering the
      "Stock In" action. */
  lemma LowCountIsLinkCount(rows: seq<StatusRow>)
    ensures Count(rows, LowRow) == |Filter(rows, row => StockInLink(row).Some?)|
  {
    CountIsFilterLength(rows, LowRow);
    assert forall row :: LowRow(row) == StockInLink(row).Some?;
    FilterSamePredicate(rows, LowRow, row => StockInLink(row).Some?);
  }

  /** Filtering by two predicates that agree everywhere gives the same
      result. */
  lemma {:induction false} FilterSamePredicate<T(!new)>(xs: seq<T>, p: T -> bool, q: T -> bool)
    requires forall x :: p(x) == q(x)
    ensures Filter(xs, p) == Filter(xs, q)
    decreases |xs|
  {
    if |xs| > 0 {
      FilterSamePredicate(xs[1..], p, q);
    }
  }

  // ---------------------------------------------------------------------------
  // Spare parts list

  /** A row of `GET /api/spare-parts` as the list shows it (price in
      cents). */
  datatype ListedPart = ListedPart(id: int, name: string, category: string, quantity: int, unitPrice: int)

  /** The quantity is shown in red exactly when it is low. */
  predicate Highlighted(p: ListedPart) {
    IsLow(p.quantity)
  }

  function PartCategories(parts: seq<ListedPart>): seq<string> {
    Map(parts, (p: ListedPart) => p.category)
  }

  /** The list's category drop-down: each category once, in order of first
      appearance, and nothing else. */
  method PartsListCategories(parts: seq<ListedPart>) returns (r: seq<string>)
    ensures NoDuplicates(r)
    ensures forall i :: 0 <= i < |r| ==> r[i] in PartCategories(parts)
    ensures forall i :: 0 <= i < |r| ==> exists k :: 0 <= k < |parts| && parts[k].category == r[i]
    ensures forall k :: 0 <= k < |parts| ==> parts[k].category in r
    ensures forall i, j :: 0 <= i < j < |r| ==> IndexOf(PartCategories(parts), r[i]) < IndexOf(PartCategories(parts), r[j])
  {
    var column := PartCategories(parts);
    r := UniqueValues(column);
    forall i | 0 <= i < |r|
      ensures exists k :: 0 <= k < |parts| && parts[k].category == r[i]
    {
      var k := IndexOf(column, r[i]);
      assert 0 <= k < |parts| && parts[k].category == r[i];
    }
    forall k | 0 <= k < |parts|
      ensures parts[k].category in r
    {
      assert column[k] in column;
    }
  }

  /** The list searches the name and the category. */
  predicate KeepPart(p: ListedPart, term: string, category: string) {
    (MatchesSearch(p.name, term) || MatchesSearch(p.category, term)) && MatchesCategory(p.category, category)
  }

  /** `filteredSpareParts`: the parts whose name or category contains the
      term and whose category passes the filter, in their original order. */
  function FilterParts(parts: seq<ListedPart>, term: string, category: string): (r: seq<ListedPart>)
    ensures IsSubsequence(r, parts)
    ensures forall p :: p in r <==> p in parts && KeepPart(p, term, category)
  {
    Filter(parts, p => KeepPart(p, term, category))
  }

  /** With no search term and no category chosen, every part is shown. */
  lemma FilterPartsKeepsAll(parts: seq<ListedPart>)
    ensures FilterParts(parts, "", "") == parts
  {
    forall i | 0 <= i < |parts|
      ensures KeepPart(parts[i], "", "")
    {
      EmptyTermMatches(parts[i].name);
    }
  }

  /** Choosing a category on its own narrows the list to exactly that
      category's parts. */
  lemma FilterPartsByCategory(parts: seq<ListedPart>, category: string)
    requires category != ""
    ensures forall p :: p in FilterParts(parts, "", category) <==> p in parts && p.category == category
  {
    forall p | p in parts
      ensures MatchesSearch(p.name, "")
    {
      EmptyTermMatches(p.name);
    }
  }

  /** Both screens use the same low-stock rule: a part is highlighted in
      the list exactly when its report row offers the "Stock In" action. */
  lemma HighlightMatchesStockInAction(p: ListedPart, row: StatusRow)
    requires p.id == row.id && p.quantity == row.currentQuantity
    ensures Highlighted(p) <==> StockInLink(row).Some?
    ensures Highlighted(p) ==> SparePartIdParam(StockInLink(row).value) == Some(IntText(p.id))
  {
    if Highlighted(p) {
      StockInLinkOpensForm(row);
    }
  }
}
