/** The database of the inventory server: the `Spare_Part`, `Stock_In` and
    `Stock_Out` tables (backend/server.js, the three CREATE TABLE statements),
    the per-part movement totals, and the ledger invariant the handlers keep.
    Money is an integer number of cents (`DECIMAL(10, 2)`); timestamps are
    seconds on the database server's clock. */
module Inventory {
  import opened Sequences

  type Timestamp = int

  const SecondsPerDay: int := 86400

  /** The calendar day of a timestamp (SQL's `DATE(...)`), counted in days
      from the clock's origin. */
  function DayOf(t: Timestamp): int {
    t / SecondsPerDay
  }

  /** A `Spare_Part` row; its id is the key under which the store holds it. */
  datatype Part = Part(
    name: string,
    category: string,
    quantity: int,
    unitPrice: int,
    createdAt: Timestamp)

  /** The widths of the `VARCHAR` columns `name` and `category`. */
  const MaxNameLength: nat := 100
  const MaxCategoryLength: nat := 50

  /** Text `t` fits a `VARCHAR(w)` column when every character past the
      width is a space: MySQL cuts such trailing spaces off with a warning
      in every SQL mode, while cutting any other character fails the
      insert in strict mode. */
  predicate FitsColumn(t: string, w: nat) {
    forall i :: w <= i < |t| ==> t[i] == ' '
  }

  /** The value a `VARCHAR(w)` column stores for text `t`: its first `w`
      characters. */
  function ColumnValue(t: string, w: nat): (r: string)
    ensures |r| == if |t| <= w then |t| else w
    ensures r == t[..|r|]
    ensures |t| <= w ==> r == t
  {
    if |t| <= w then t else t[..w]
  }

  /** A text that fits its column loses only spaces when stored. */
  lemma ColumnValueDropsSpaces(t: string, w: nat)
    requires FitsColumn(t, w)
    ensures t == ColumnValue(t, w) + t[|ColumnValue(t, w)|..]
    ensures forall c :: c in t[|ColumnValue(t, w)|..] ==> c == ' '
  {
  }

  /** The generated column `totalPrice`, recomputed from the row. */
  function PartTotalPrice(p: Part): int {
    p.quantity * p.unitPrice
  }

  /** A part whose quantity moved by `d` while its unit price stayed put
      has its total price moved by `d` times the unit price. */
  lemma TotalPriceMoved(p: Part, p': Part, d: int)
    requires p'.unitPrice == p.unitPrice && p'.quantity == p.quantity + d
    ensures PartTotalPrice(p') == PartTotalPrice(p) + d * p.unitPrice
  {
  }

  /** A `Stock_In` row. */
  datatype StockIn = StockIn(id: int, partId: int, quantity: int, date: Timestamp)

  /** A `Stock_Out` row, carrying the unit price charged for that movement. */
  datatype StockOut = StockOut(id: int, partId: int, quantity: int, unitPrice: int, date: Timestamp)

  /** The generated column `stockOutTotalPrice`. */
  function StockOutTotalPrice(e: StockOut): int {
    e.quantity * e.unitPrice
  }

  /** The three tables, with the next value of each `AUTO_INCREMENT`
      counter. Stock-in and stock-out rows are kept in insertion order. */
  datatype Store = Store(
    parts: map<int, Part>,
    stockIns: seq<StockIn>,
    stockOuts: seq<StockOut>,
    nextPartId: int,
    nextStockInId: int,
    nextStockOutId: int)

  /** The freshly created database: empty tables, counters at 1. */
  const EmptyStore: Store := Store(map[], [], [], 1, 1, 1)

  // ---------------------------------------------------------------------------
  // Movement totals

  /** The quantities of the stock-in rows of part `pid`, in row order. */
  function InQuantities(ins: seq<StockIn>, pid: int): seq<int> {
    if |ins| == 0 then []
    else
      var e := ins[|ins| - 1];
      InQuantities(ins[..|ins| - 1], pid) + (if e.partId == pid then [e.quantity] else [])
  }

  /** The quantities of the stock-out rows of part `pid`, in row order. */
  function OutQuantities(outs: seq<StockOut>, pid: int): seq<int> {
    if |outs| == 0 then []
    else
      var e := outs[|outs| - 1];
      OutQuantities(outs[..|outs| - 1], pid) + (if e.partId == pid then [e.quantity] else [])
  }

  /** Σ stock-in quantity of part `pid`. */
  function TotalIn(s: Store, pid: int): int {
    Sum(InQuantities(s.stockIns, pid))
  }

  /** Σ stock-out quantity of part `pid`. */
  function TotalOut(s: Store, pid: int): int {
    Sum(OutQuantities(s.stockOuts, pid))
  }

  /** What one stock-out row contributes to part `pid`'s outflow. */
  function OutShare(e: StockOut, pid: int): int {
    if e.partId == pid then e.quantity else 0
  }

  /** Appending a stock-in row adds its quantity to its own part's inflow
      and nothing to any other part's. */
  lemma InTotalAppend(ins: seq<StockIn>, e: StockIn, pid: int)
    ensures Sum(InQuantities(ins + [e], pid)) ==
            Sum(InQuantities(ins, pid)) + (if e.partId == pid then e.quantity else 0)
  {
    assert (ins + [e])[..|ins|] == ins;
    var q := InQuantities(ins, pid);
    if e.partId == pid {
      SumAppend(q, e.quantity);
    } else {
      assert q + [] == q;
    }
  }

  /** The stock-out rows of a concatenation are those of the parts. */
  lemma {:induction false} OutQuantitiesConcat(a: seq<StockOut>, b: seq<StockOut>, pid: int)
    ensures OutQuantities(a + b, pid) == OutQuantities(a, pid) + OutQuantities(b, pid)
    decreases |b|
  {
    if |b| == 0 {
      assert a + b == a;
    } else {
      var init := b[..|b| - 1];
      OutQuantitiesConcat(a, init, pid);
      assert (a + b)[..|a + b| - 1] == a + init;
    }
  }

  /** Outflow adds up over concatenation. */
  lemma OutTotalConcat(a: seq<StockOut>, b: seq<StockOut>, pid: int)
    ensures Sum(OutQuantities(a + b, pid)) ==
            Sum(OutQuantities(a, pid)) + Sum(OutQuantities(b, pid))
  {
    OutQuantitiesConcat(a, b, pid);
    SumConcat(OutQuantities(a, pid), OutQuantities(b, pid));
  }

  lemma OutTotalSingle(e: StockOut, pid: int)
    ensures Sum(OutQuantities([e], pid)) == OutShare(e, pid)
  {
    assert [e][..0] == [];
    if e.partId == pid {
      assert Sum([e.quantity]) == Sum([e.quantity][..0]) + e.quantity;
    }
  }

  /** Outflow of a sequence split around position `i`. */
  lemma OutTotalSplit(outs: seq<StockOut>, i: nat, pid: int)
    requires i < |outs|
    ensures Sum(OutQuantities(outs, pid)) ==
            Sum(OutQuantities(outs[..i], pid)) + OutShare(outs[i], pid) +
            Sum(OutQuantities(outs[i + 1..], pid))
  {
    assert outs == outs[..i] + [outs[i]] + outs[i + 1..];
    OutTotalConcat(outs[..i] + [outs[i]], outs[i + 1..], pid);
    OutTotalConcat(outs[..i], [outs[i]], pid);
    OutTotalSingle(outs[i], pid);
  }

  /** Removing the row at `i` takes exactly its share away. */
  lemma OutTotalRemove(outs: seq<StockOut>, i: nat, pid: int)
    requires i < |outs|
    ensures Sum(OutQuantities(outs[..i] + outs[i + 1..], pid)) ==
            Sum(OutQuantities(outs, pid)) - OutShare(outs[i], pid)
  {
    OutTotalSplit(outs, i, pid);
    OutTotalConcat(outs[..i], outs[i + 1..], pid);
  }

  /** Replacing the row at `i` swaps its share for the new row's. */
  lemma OutTotalReplace(outs: seq<StockOut>, i: nat, e: StockOut, pid: int)
    requires i < |outs|
    ensures Sum(OutQuantities(outs[i := e], pid)) ==
            Sum(OutQuantities(outs, pid)) - OutShare(outs[i], pid) + OutShare(e, pid)
  {
    var u := outs[i := e];
    assert u[..i] == outs[..i] && u[i + 1..] == outs[i + 1..];
    OutTotalSplit(outs, i, pid);
    OutTotalSplit(u, i, pid);
  }

  /** Appending a row adds its share. */
  lemma OutTotalAppend(outs: seq<StockOut>, e: StockOut, pid: int)
    ensures Sum(OutQuantities(outs + [e], pid)) == Sum(OutQuantities(outs, pid)) + OutShare(e, pid)
  {
    OutTotalConcat(outs, [e], pid);
    OutTotalSingle(e, pid);
  }

  // ---------------------------------------------------------------------------
  // The ledger invariant

  /** Part ids are positive and below the part counter. */
  ghost predicate PartIdsAllocated(s: Store) {
    s.nextPartId >= 1 && forall id :: id in s.parts ==> 0 < id < s.nextPartId
  }

  /** Every stock-in row names an existing part (the foreign key), has a
      positive quantity and an id below its counter. */
  ghost predicate StockInRowsValid(s: Store) {
    forall i :: 0 <= i < |s.stockIns| ==>
      s.stockIns[i].partId in s.parts && s.stockIns[i].quantity > 0 &&
      s.stockIns[i].id < s.nextStockInId
  }

  /** Every stock-out row names an existing part (the foreign key), has a
      positive quantity and an id below its counter. Its unit price may be
      `0.00`: a price below half a cent passes the handlers' check and is
      stored rounded. */
  ghost predicate StockOutRowsValid(s: Store) {
    forall i :: 0 <= i < |s.stockOuts| ==>
      s.stockOuts[i].partId in s.parts && s.stockOuts[i].quantity > 0 &&
      s.stockOuts[i].id < s.nextStockOutId
  }

  /** Stock-out ids are distinct (the primary key). */
  ghost predicate StockOutIdsDistinct(s: Store) {
    forall i, j :: 0 <= i < j < |s.stockOuts| ==> s.stockOuts[i].id != s.stockOuts[j].id
  }

  /** Referential and counter integrity of the three tables. */
  ghost predicate WellFormed(s: Store) {
    PartIdsAllocated(s) && StockInRowsValid(s) && StockOutRowsValid(s) && StockOutIdsDistinct(s)
  }

  /** Every part's on-hand quantity is its total inflow minus its total
      outflow. */
  ghost predicate Balanced(s: Store) {
    forall id :: id in s.parts ==> s.parts[id].quantity == TotalIn(s, id) - TotalOut(s, id)
  }

  /** No part's on-hand quantity is negative. */
  ghost predicate NonNegative(s: Store) {
    forall id :: id in s.parts ==> s.parts[id].quantity >= 0
  }

  ghost predicate Valid(s: Store) {
    WellFormed(s) && Balanced(s) && NonNegative(s)
  }

  lemma EmptyStoreValid()
    ensures Valid(EmptyStore)
  {
  }
}
