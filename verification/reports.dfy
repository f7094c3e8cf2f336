/** The two read-only report queries of the inventory server
    (backend/server.js, `GET /api/reports/daily-stock-out` and
    `GET /api/reports/stock-status`). Each is a function of the store, so
    neither can change it. The stock-status query is modelled the way SQL
    evaluates it: the part row joined with all its stock-in rows and then
    with all its stock-out rows, grouped back per part and summed. */
module Reports {
  import opened Prelude
  import opened Text
  import opened Sequences
  import opened Inventory

  // ---------------------------------------------------------------------------
  // SQL building blocks

  /** The non-NULL values of a column, in row order. */
  function NonNull(xs: seq<Option<int>>): seq<int> {
    if |xs| == 0 then []
    else (if xs[0].Some? then [xs[0].value] else []) + NonNull(xs[1..])
  }

  /** SQL's `SUM`: the sum of the non-NULL values, NULL when there are none. */
  function SqlSum(xs: seq<Option<int>>): Option<int> {
    var v := NonNull(xs);
    if |v| == 0 then None else Some(Sum(v))
  }

  /** `COALESCE(SUM(xs), 0)` is the plain sum of the non-NULL values. */
  lemma CoalescedSum(xs: seq<Option<int>>)
    ensures SqlSum(xs).GetOr(0) == Sum(NonNull(xs))
  {
  }

  lemma {:induction false} NonNullConcat(a: seq<Option<int>>, b: seq<Option<int>>)
    ensures NonNull(a + b) == NonNull(a) + NonNull(b)
    decreases |a|
  {
    if |a| == 0 {
      assert a + b == b;
    } else {
      var h := if a[0].Some? then [a[0].value] else [];
      assert (a + b)[0] == a[0];
      assert (a + b)[1..] == a[1..] + b;
      NonNullConcat(a[1..], b);
      assert NonNull(a + b) == h + (NonNull(a[1..]) + NonNull(b));
      assert NonNull(a) == h + NonNull(a[1..]);
      assert h + (NonNull(a[1..]) + NonNull(b)) == (h + NonNull(a[1..])) + NonNull(b);
    }
  }

  /** What a single column value adds to a `SUM`. */
  function ValueOr0(x: Option<int>): int {
    if x.Some? then x.value else 0
  }

  /** The sum of the non-NULL values adds up over concatenation. */
  lemma SumNonNullConcat(a: seq<Option<int>>, b: seq<Option<int>>)
    ensures Sum(NonNull(a + b)) == Sum(NonNull(a)) + Sum(NonNull(b))
  {
    NonNullConcat(a, b);
    SumConcat(NonNull(a), NonNull(b));
  }

  lemma SumNonNullFront(a: seq<Option<int>>)
    requires |a| > 0
    ensures Sum(NonNull(a)) == ValueOr0(a[0]) + Sum(NonNull(a[1..]))
  {
    assert a == [a[0]] + a[1..];
    SumNonNullConcat([a[0]], a[1..]);
    assert [a[0]][1..] == [];
    if a[0].Some? {
      assert NonNull([a[0]]) == [a[0].value];
      assert [a[0].value][..0] == [];
    }
  }

  /** The rows a `LEFT JOIN` contributes for one part: its matching
      quantities, or a single NULL when nothing matches. */
  function Padded(q: seq<int>): seq<Option<int>> {
    if |q| == 0 then [None] else seq(|q|, i requires 0 <= i < |q| => Some(q[i]))
  }

  lemma {:induction false} NonNullPadded(q: seq<int>)
    ensures NonNull(Padded(q)) == q
    decreases |q|
  {
    if |q| > 0 {
      var p := Padded(q);
      assert p[1..] == Padded(q[1..]) || |q| == 1;
      if |q| == 1 {
        assert p[1..] == [];
      } else {
        NonNullPadded(q[1..]);
      }
    }
  }

  /** One joined row: the stock-in quantity and the stock-out quantity. */
  type Joined = (Option<int>, Option<int>)

  /** `x` paired with every element of `b`. */
  function PairWith(x: Option<int>, b: seq<Option<int>>): seq<Joined> {
    seq(|b|, j requires 0 <= j < |b| => (x, b[j]))
  }

  /** The second `LEFT JOIN` applied to the rows of the first: every
      stock-in value combined with every stock-out value. */
  function Cross(a: seq<Option<int>>, b: seq<Option<int>>): seq<Joined> {
    if |a| == 0 then [] else PairWith(a[0], b) + Cross(a[1..], b)
  }

  function InColumn(rows: seq<Joined>): seq<Option<int>> {
    seq(|rows|, i requires 0 <= i < |rows| => rows[i].0)
  }

  function OutColumn(rows: seq<Joined>): seq<Option<int>> {
    seq(|rows|, i requires 0 <= i < |rows| => rows[i].1)
  }

  /** The sum of a column holding the value `x` in each of `n` rows. */
  lemma {:induction false} SumNonNullConstant(x: Option<int>, n: nat)
    ensures Sum(NonNull(seq(n, _ => x))) == ValueOr0(x) * n
  {
    if n > 0 {
      var c := seq(n, _ => x);
      assert c[1..] == seq(n - 1, _ => x);
      SumNonNullConstant(x, n - 1);
      SumNonNullFront(c);
      assert ValueOr0(x) * n == ValueOr0(x) + ValueOr0(x) * (n - 1);
    }
  }

  lemma InColumnConcat(r1: seq<Joined>, r2: seq<Joined>)
    ensures InColumn(r1 + r2) == InColumn(r1) + InColumn(r2)
  {
  }

  lemma OutColumnConcat(r1: seq<Joined>, r2: seq<Joined>)
    ensures OutColumn(r1 + r2) == OutColumn(r1) + OutColumn(r2)
  {
  }

  lemma Distribute(x: int, y: int, n: int)
    ensures (x + y) * n == x * n + y * n
  {
  }

  lemma ScaleSucc(x: int, n: int)
    ensures x * (n + 1) == x + x * n
  {
  }

  /** Each stock-in value is summed once per stock-out value it was
      joined with. */
  lemma {:induction false} InColumnSum(a: seq<Option<int>>, b: seq<Option<int>>)
    ensures Sum(NonNull(InColumn(Cross(a, b)))) == Sum(NonNull(a)) * |b|
    decreases |a|
  {
    if |a| > 0 {
      var head := PairWith(a[0], b);
      var tail := Cross(a[1..], b);
      InColumnConcat(head, tail);
      assert InColumn(head) == seq(|b|, _ => a[0]);
      SumNonNullConcat(InColumn(head), InColumn(tail));
      SumNonNullConstant(a[0], |b|);
      InColumnSum(a[1..], b);
      SumNonNullFront(a);
      Distribute(ValueOr0(a[0]), Sum(NonNull(a[1..])), |b|);
    }
  }

  /** Each stock-out value is summed once per stock-in value it was
      joined with. */
  lemma {:induction false} OutColumnSum(a: seq<Option<int>>, b: seq<Option<int>>)
    ensures Sum(NonNull(OutColumn(Cross(a, b)))) == Sum(NonNull(b)) * |a|
    decreases |a|
  {
    if |a| > 0 {
      var head := PairWith(a[0], b);
      var tail := Cross(a[1..], b);
      OutColumnConcat(head, tail);
      assert OutColumn(head) == b;
      SumNonNullConcat(b, OutColumn(tail));
      OutColumnSum(a[1..], b);
      var m := |a| - 1;
      ScaleSucc(Sum(NonNull(b)), m);
      assert |a| == m + 1;
    }
  }

  // ---------------------------------------------------------------------------
  // Stock status

  /** A row of the stock-status report. */
  datatype StatusRow = StatusRow(
    id: int,
    name: string,
    category: string,
    currentQuantity: int,
    totalStockIn: int,
    totalStockOut: int)

  /** The grouped rows of `Spare_Part LEFT JOIN Stock_In LEFT JOIN
      Stock_Out` belonging to part `pid`. */
  function JoinedRows(s: Store, pid: int): seq<Joined> {
    Cross(Padded(InQuantities(s.stockIns, pid)), Padded(OutQuantities(s.stockOuts, pid)))
  }

  /** The report row of part `pid` as the query computes it: both sums are
      taken over the joined rows, where every stock-in row is repeated once
      per stock-out row and the other way round. */
  function JoinedStatusRow(s: Store, pid: int): StatusRow
    requires pid in s.parts
  {
    var p := s.parts[pid];
    StatusRow(pid, p.name, p.category, p.quantity, JoinedStockIn(s, pid), JoinedStockOut(s, pid))
  }

  /** `COALESCE(SUM(si.stockInQuantity), 0)` over the group of part `pid`. */
  function JoinedStockIn(s: Store, pid: int): int {
    SqlSum(InColumn(JoinedRows(s, pid))).GetOr(0)
  }

  /** `COALESCE(SUM(so.stockOutQuantity), 0)` over the group of part `pid`. */
  function JoinedStockOut(s: Store, pid: int): int {
    SqlSum(OutColumn(JoinedRows(s, pid))).GetOr(0)
  }

  /** The larger of 1 and `n`: how many rows a `LEFT JOIN` yields for `n`
      matches. */
  function AtLeastOne(n: nat): nat {
    if n == 0 then 1 else n
  }

  /** A `LEFT JOIN` yields `AtLeastOne(|q|)` rows for the matches `q`. */
  lemma PaddedLength(q: seq<int>)
    ensures |Padded(q)| == AtLeastOne(|q|)
  {
  }

  /** The sums over the doubly joined rows of matches `ins` and `outs`. */
  lemma JoinedSums(ins: seq<int>, outs: seq<int>)
    ensures SqlSum(InColumn(Cross(Padded(ins), Padded(outs)))).GetOr(0) == Sum(ins) * AtLeastOne(|outs|)
    ensures SqlSum(OutColumn(Cross(Padded(ins), Padded(outs)))).GetOr(0) == Sum(outs) * AtLeastOne(|ins|)
  {
    var a := Padded(ins);
    var b := Padded(outs);
    var rows := Cross(a, b);
    CoalescedSum(InColumn(rows));
    CoalescedSum(OutColumn(rows));
    InColumnSum(a, b);
    OutColumnSum(a, b);
    NonNullPadded(ins);
    NonNullPadded(outs);
    PaddedLength(ins);
    PaddedLength(outs);
  }

  /** The fan-out of the query: a part with m stock-in rows and n
      stock-out rows is reported with Σin · max(1, n) and
      Σout · max(1, m); with no movements at all both totals are 0. */
  lemma JoinedTotals(s: Store, pid: int)
    requires pid in s.parts
    ensures var r := JoinedStatusRow(s, pid);
            var m := |InQuantities(s.stockIns, pid)|;
            var n := |OutQuantities(s.stockOuts, pid)|;
            r.id == pid && r.currentQuantity == s.parts[pid].quantity &&
            r.totalStockIn == TotalIn(s, pid) * AtLeastOne(n) &&
            r.totalStockOut == TotalOut(s, pid) * AtLeastOne(m)
  {
    JoinedSums(InQuantities(s.stockIns, pid), OutQuantities(s.stockOuts, pid));
  }

  /** The report row of part `pid` with each movement counted once, as the
      query evidently intends: the per-part inflow and outflow. */
  function StatusRowOf(s: Store, pid: int): StatusRow
    requires pid in s.parts
  {
    var p := s.parts[pid];
    StatusRow(pid, p.name, p.category, p.quantity, TotalIn(s, pid), TotalOut(s, pid))
  }

  /** Part 1 received 5 units twice and issued 3 once, so it holds 7. */
  const TwoInOneOut: Store :=
    Store(map[1 := Part("Brake pad", "Brakes", 7, 1000, 0)],
          [StockIn(1, 1, 5, 0), StockIn(2, 1, 5, 0)],
          [StockOut(1, 1, 3, 1200, 0)], 2, 3, 2)

  lemma TwoInOneOutMovements()
    ensures InQuantities(TwoInOneOut.stockIns, 1) == [5, 5]
    ensures OutQuantities(TwoInOneOut.stockOuts, 1) == [3]
    ensures TotalIn(TwoInOneOut, 1) == 10 && TotalOut(TwoInOneOut, 1) == 3
  {
    var ins := TwoInOneOut.stockIns;
    assert ins[..1] == [StockIn(1, 1, 5, 0)] && ins[..1][..0] == [];
    assert [5, 5][..1] == [5] && [5][..0] == [];
    assert TwoInOneOut.stockOuts[..0] == [];
  }

  lemma TwoInOneOutValid()
    ensures Valid(TwoInOneOut)
  {
    TwoInOneOutMovements();
  }

  /** A store satisfying the ledger invariant on which the query's totals
      disagree with the stock on hand: the report shows 10 in and 6 out for
      a part holding 7, while the corrected row shows 10 in and 3 out. */
  lemma FanOutOverstatesTotals()
    ensures Valid(TwoInOneOut)
    ensures JoinedStatusRow(TwoInOneOut, 1) == StatusRow(1, "Brake pad", "Brakes", 7, 10, 6)
    ensures StatusRowOf(TwoInOneOut, 1) == StatusRow(1, "Brake pad", "Brakes", 7, 10, 3)
    ensures var r := JoinedStatusRow(TwoInOneOut, 1);
            r.currentQuantity != r.totalStockIn - r.totalStockOut
  {
    TwoInOneOutValid();
    TwoInOneOutMovements();
    JoinedTotals(TwoInOneOut, 1);
  }

  /** On a balanced store the corrected rows satisfy
      currentQuantity = totalStockIn − totalStockOut. */
  lemma StatusRowBalanced(s: Store, pid: int)
    requires Balanced(s) && pid in s.parts
    ensures StatusRowOf(s, pid).currentQuantity ==
            StatusRowOf(s, pid).totalStockIn - StatusRowOf(s, pid).totalStockOut
  {
  }

  /** The query's row and the corrected row agree exactly when neither sum
      is inflated: when the part has at most one stock-out row or no inflow,
      and at most one stock-in row or no outflow. */
  lemma JoinedAgreesWhenNoFanOut(s: Store, pid: int)
    requires pid in s.parts
    ensures JoinedStatusRow(s, pid) == StatusRowOf(s, pid) <==>
            (TotalIn(s, pid) == 0 || |OutQuantities(s.stockOuts, pid)| <= 1) &&
            (TotalOut(s, pid) == 0 || |InQuantities(s.stockIns, pid)| <= 1)
  {
    JoinedTotals(s, pid);
    var n := |OutQuantities(s.stockOuts, pid)|;
    var m := |InQuantities(s.stockIns, pid)|;
    var i := TotalIn(s, pid);
    var o := TotalOut(s, pid);
    if i != 0 && n > 1 {
      assert i * n != i;
    }
    if o != 0 && m > 1 {
      assert o * m != o;
    }
  }

  /** Report order: `ORDER BY sp.name`, compared case-insensitively as the
      server's default collation does for ASCII letters. */
  predicate NameLe(a: string, b: string) {
    LexLe(Lower(a), Lower(b))
  }

  function ByName(): (StatusRow, StatusRow) -> bool {
    (a: StatusRow, b: StatusRow) => NameLe(a.name, b.name)
  }

  lemma ByNameTotal()
    ensures Total(ByName())
  {
    forall a: StatusRow, b: StatusRow
      ensures ByName()(a, b) || ByName()(b, a)
    {
      LexLeTotal(Lower(a.name), Lower(b.name));
    }
  }

  /** `rows` in name order. */
  function OrderedByName(rows: seq<StatusRow>): (r: seq<StatusRow>)
    ensures multiset(r) == multiset(rows)
    ensures SortedBy(r, ByName())
  {
    ByNameTotal();
    SortBy(rows, ByName())
  }

  /** Reordering keeps the length and the set of rows. */
  lemma OrderedMembers(rows: seq<StatusRow>)
    ensures |OrderedByName(rows)| == |rows|
    ensures forall x :: x in OrderedByName(rows) <==> x in rows
  {
    var r := OrderedByName(rows);
    forall x
      ensures x in r <==> x in rows
    {
      assert x in multiset(r) <==> x in multiset(rows);
    }
    assert |r| == |multiset(r)| == |multiset(rows)| == |rows|;
  }

  /** The part ids in increasing order: the groups of `GROUP BY sp.id`. */
  function PartIds(s: Store): (ids: seq<int>)
    ensures |ids| == |s.parts|
    ensures forall id :: id in ids <==> id in s.parts
  {
    Ascending(s.parts.Keys)
  }

  /** `GET /api/reports/stock-status` as written: one joined row per part,
      ordered by name. */
  function StockStatusAsWritten(s: Store): seq<StatusRow> {
    OrderedByName(JoinedRowsById(s))
  }

  /** The joined row of every part, by increasing id. */
  function JoinedRowsById(s: Store): seq<StatusRow> {
    var ids := PartIds(s);
    seq(|ids|, i requires 0 <= i < |ids| => JoinedStatusRow(s, ids[i]))
  }

  /** The corrected row of every part, by increasing id. */
  function RowsById(s: Store): seq<StatusRow> {
    var ids := PartIds(s);
    seq(|ids|, i requires 0 <= i < |ids| => StatusRowOf(s, ids[i]))
  }

  /** The stock-status report with each movement counted once. */
  function StockStatus(s: Store): seq<StatusRow> {
    OrderedByName(RowsById(s))
  }

  /** Before ordering, the query has one joined row per part. */
  lemma JoinedRowsByIdMembers(s: Store)
    ensures |JoinedRowsById(s)| == |s.parts|
    ensures forall row :: row in JoinedRowsById(s) ==> row.id in s.parts && row == JoinedStatusRow(s, row.id)
    ensures forall id :: id in s.parts ==> JoinedStatusRow(s, id) in JoinedRowsById(s)
  {
    var ids := PartIds(s);
    var rows := JoinedRowsById(s);
    forall id | id in s.parts
      ensures JoinedStatusRow(s, id) in rows
    {
      var k :| 0 <= k < |ids| && ids[k] == id;
      assert rows[k] == JoinedStatusRow(s, id);
    }
    forall k | 0 <= k < |rows|
      ensures rows[k].id in s.parts && rows[k] == JoinedStatusRow(s, rows[k].id)
    {
      assert ids[k] in ids;
      assert rows[k] == JoinedStatusRow(s, ids[k]);
      assert rows[k].id == ids[k];
    }
  }

  /** Before ordering, the corrected report has one row per part. */
  lemma RowsByIdMembers(s: Store)
    ensures |RowsById(s)| == |s.parts|
    ensures forall row :: row in RowsById(s) ==> row.id in s.parts && row == StatusRowOf(s, row.id)
    ensures forall id :: id in s.parts ==> StatusRowOf(s, id) in RowsById(s)
  {
    var ids := PartIds(s);
    var rows := RowsById(s);
    forall id | id in s.parts
      ensures StatusRowOf(s, id) in rows
    {
      var k :| 0 <= k < |ids| && ids[k] == id;
      assert rows[k] == StatusRowOf(s, id);
    }
    forall k | 0 <= k < |rows|
      ensures rows[k].id in s.parts && rows[k] == StatusRowOf(s, rows[k].id)
    {
      assert ids[k] in ids;
      assert rows[k] == StatusRowOf(s, ids[k]);
      assert rows[k].id == ids[k];
    }
  }

  /** The query lists every part exactly once, each with its own row, in
      name order. */
  lemma StockStatusAsWrittenLists(s: Store)
    ensures var r := StockStatusAsWritten(s);
            |r| == |s.parts| &&
            (forall row :: row in r ==> row.id in s.parts && row == JoinedStatusRow(s, row.id)) &&
            (forall id :: id in s.parts ==> JoinedStatusRow(s, id) in r) &&
            SortedBy(r, ByName())
  {
    JoinedRowsByIdMembers(s);
    OrderedMembers(JoinedRowsById(s));
  }

  /** The corrected report lists every part exactly once, each with its own
      row, in name order. */
  lemma StockStatusLists(s: Store)
    ensures var r := StockStatus(s);
            |r| == |s.parts| &&
            (forall row :: row in r ==> row.id in s.parts && row == StatusRowOf(s, row.id)) &&
            (forall id :: id in s.parts ==> StatusRowOf(s, id) in r) &&
            SortedBy(r, ByName())
  {
    RowsByIdMembers(s);
    OrderedMembers(RowsById(s));
  }

  /** On a valid store every row of the corrected report balances. */
  lemma StockStatusBalanced(s: Store)
    requires Valid(s)
    ensures forall row :: row in StockStatus(s) ==>
              row.currentQuantity == row.totalStockIn - row.totalStockOut && row.currentQuantity >= 0
  {
    StockStatusLists(s);
    forall row | row in StockStatus(s)
      ensures row.currentQuantity == row.totalStockIn - row.totalStockOut && row.currentQuantity >= 0
    {
      StatusRowBalanced(s, row.id);
    }
  }

  // ---------------------------------------------------------------------------
  // Daily stock-out

  /** A row of the daily stock-out report. */
  datatype DailyRow = DailyRow(
    id: int,
    sparePartName: string,
    category: string,
    stockOutQuantity: int,
    stockOutUnitPrice: int,
    stockOutTotalPrice: int,
    stockOutDate: Timestamp)

  /** The row the inner join produces for stock-out `e`. */
  function DailyRowOf(s: Store, e: StockOut): DailyRow
    requires e.partId in s.parts
  {
    var p := s.parts[e.partId];
    DailyRow(e.id, p.name, p.category, e.quantity, e.unitPrice, StockOutTotalPrice(e), e.date)
  }

  /** `WHERE DATE(so.stockOutDate) = ?` together with the inner join. */
  predicate OnDay(s: Store, day: int, e: StockOut) {
    e.partId in s.parts && DayOf(e.date) == day
  }

  /** The joined rows of the stock-outs `outs` that fall on `day`. */
  function DayRows(s: Store, day: int, outs: seq<StockOut>): seq<DailyRow> {
    if |outs| == 0 then []
    else
      (if OnDay(s, day, outs[0]) then [DailyRowOf(s, outs[0])] else []) + DayRows(s, day, outs[1..])
  }

  /** A row is selected exactly when it joins a stock-out of that day. */
  lemma {:induction false} DayRowsMember(s: Store, day: int, outs: seq<StockOut>, x: DailyRow)
    ensures x in DayRows(s, day, outs) <==>
            exists e :: e in outs && OnDay(s, day, e) && x == DailyRowOf(s, e)
    decreases |outs|
  {
    if |outs| > 0 {
      DayRowsMember(s, day, outs[1..], x);
      assert outs == [outs[0]] + outs[1..];
      if exists e :: e in outs && OnDay(s, day, e) && x == DailyRowOf(s, e) {
        var e :| e in outs && OnDay(s, day, e) && x == DailyRowOf(s, e);
        if e != outs[0] {
          assert e in outs[1..];
        }
      }
    }
  }

  /** `OnDay` as a filter over the stock-out records. */
  function OnDayFilter(s: Store, day: int): StockOut -> bool {
    (e: StockOut) => OnDay(s, day, e)
  }

  /** One row per stock-out of the day: the join meets each record at
      most once, because the part id is the key of the parts. */
  lemma {:induction false} DayRowsLength(s: Store, day: int, outs: seq<StockOut>)
    ensures |DayRows(s, day, outs)| == Count(outs, OnDayFilter(s, day))
    decreases |outs|
  {
    if |outs| > 0 {
      DayRowsLength(s, day, outs[1..]);
      CountFront(outs, OnDayFilter(s, day));
    }
  }

  /** `ORDER BY so.stockOutDate DESC`. */
  function NewestFirst(): (DailyRow, DailyRow) -> bool {
    (a: DailyRow, b: DailyRow) => a.stockOutDate >= b.stockOutDate
  }

  /** `GET /api/reports/daily-stock-out` for the calendar day `day`. */
  function DailyStockOut(s: Store, day: int): (r: seq<DailyRow>)
    ensures multiset(r) == multiset(DayRows(s, day, s.stockOuts))
    ensures SortedBy(r, NewestFirst())
  {
    SortBy(DayRows(s, day, s.stockOuts), NewestFirst())
  }

  /** The report holds exactly the stock-outs dated `day` whose part
      exists, each once, newest first. */
  lemma DailyStockOutSelects(s: Store, day: int)
    ensures var r := DailyStockOut(s, day);
            (forall x :: x in r <==>
               exists e :: e in s.stockOuts && OnDay(s, day, e) && x == DailyRowOf(s, e)) &&
            |r| == Count(s.stockOuts, OnDayFilter(s, day)) &&
            (forall i :: 0 <= i < |r| ==> DayOf(r[i].stockOutDate) == day) &&
            (forall i :: 0 <= i < |r| ==>
               r[i].stockOutTotalPrice == r[i].stockOutQuantity * r[i].stockOutUnitPrice) &&
            SortedBy(r, NewestFirst())
  {
    var r := DailyStockOut(s, day);
    var rows := DayRows(s, day, s.stockOuts);
    DayRowsLength(s, day, s.stockOuts);
    assert |r| == |multiset(r)| == |multiset(rows)| == |rows|;
    forall x
      ensures x in r <==> exists e :: e in s.stockOuts && OnDay(s, day, e) && x == DailyRowOf(s, e)
    {
      assert x in multiset(r) <==> x in multiset(rows);
      DayRowsMember(s, day, s.stockOuts, x);
    }
    forall i | 0 <= i < |r|
      ensures DayOf(r[i].stockOutDate) == day
      ensures r[i].stockOutTotalPrice == r[i].stockOutQuantity * r[i].stockOutUnitPrice
    {
      assert r[i] in r;
      var e :| e in s.stockOuts && OnDay(s, day, e) && r[i] == DailyRowOf(s, e);
    }
  }
}
