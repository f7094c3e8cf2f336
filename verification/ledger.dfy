/** The five write endpoints of the inventory server (backend/server.js):
    creating a spare part, recording stock in, recording stock out, and
    editing or deleting a stock-out record. Each handler either commits all
    of its writes or none of them: a refused request yields `Err` and no new
    store, which is the transaction's rollback. */
module Ledger {
  import opened Prelude
  import opened Sequences
  import opened Inventory
  import Text

  /** Why a request was refused. */
  datatype Error = Invalid | NotFound | NotEnoughStock | ServerError {
    /** The HTTP status the handler answers with. */
    function Status(): int {
      match this
      case Invalid => 400
      case NotFound => 404
      case NotEnoughStock => 400
      case ServerError => 500
    }
  }

  datatype Result<T> = Ok(value: T) | Err(error: Error)

  /** JavaScript truthiness of a numeric body field: a missing or `null`
      field (`None`) and `0` are falsy. */
  predicate Truthy(v: Option<int>) {
    v.Some? && v.value != 0
  }

  /** A unit price as a request body carries it: whether the JSON number is
      non-zero, which is all the handlers' `!unitPrice` test looks at, and
      the amount in cents the `DECIMAL(10, 2)` columns store for it. A
      positive number below half a cent is non-zero and stored as `0.00`. */
  datatype Price = Price(nonZero: bool, cents: int)

  /** The price sent for an amount that is a whole number of cents. */
  function ExactPrice(cents: int): Price {
    Price(cents != 0, cents)
  }

  /** JavaScript truthiness of a unit-price body field. */
  predicate PriceGiven(p: Option<Price>) {
    p.Some? && p.value.nonZero
  }

  /** JavaScript truthiness of a text body field: a missing field and the
      empty string are falsy, every other text is truthy, `"0"` included. */
  predicate TextGiven(t: Option<string>) {
    t.Some? && t.value != ""
  }

  /** The part id a sent id text stands for when MySQL compares it with
      the integer `id` column: the integer it denotes as a number, and no
      id at all for a text that is no integer. */
  function NamedId(t: string): (r: Option<int>)
    ensures r.Some? ==> Text.ParseInt(t) == r
  {
    match Text.ParseNumber(t)
    case Some(Numeral(negative, whole, fraction)) =>
      if whole != "" && !Text.HasNonzeroDigit(fraction) then Some(Text.Signed(negative, Text.DigitsValue(whole)))
      else None
    case _ => None
  }

  /** The decimal text of an id names that id. */
  lemma NamedIdOfIntText(n: int)
    ensures NamedId(Text.IntText(n)) == Some(n)
  {
    var d: nat := if n < 0 then -n else n;
    var w := Text.NatText(d);
    Text.ParseIntText(n);
    assert Text.ParseNumber(Text.IntText(n)) == Some(Text.Numeral(n < 0, w, ""));
    assert Text.DigitsValue(w) == d;
    assert Text.Signed(n < 0, d) == n;
  }

  /** Id text `t` names a part of the store. */
  predicate Names(s: Store, t: string) {
    NamedId(t).Some? && NamedId(t).value in s.parts
  }

  /** `UPDATE Spare_Part SET quantity = quantity + delta WHERE id = pid`,
      which matches no row, and so changes nothing, when the part is
      missing. */
  function Adjust(parts: map<int, Part>, pid: int, delta: int): (r: map<int, Part>)
    ensures r.Keys == parts.Keys
    ensures forall id :: id in parts && id != pid ==> r[id] == parts[id]
    ensures pid in parts ==> r[pid].quantity == parts[pid].quantity + delta
    ensures pid in parts ==> r[pid] == parts[pid].(quantity := r[pid].quantity)
  {
    if pid in parts then parts[pid := parts[pid].(quantity := parts[pid].quantity + delta)]
    else parts
  }

  // ---------------------------------------------------------------------------
  // POST /api/spare-parts

  /** Creates a part under the next id with the given opening quantity, and
      records that quantity as a stock-in movement when it is positive. The
      new id is `s.nextPartId`. A name or category with more than trailing
      spaces past its `VARCHAR` width is refused by the insert (strict SQL
      mode), which answers 500; trailing spaces past the width are cut. */
  function CreatePart(s: Store, name: string, category: string,
                      quantity: Option<int>, unitPrice: Option<Price>, now: Timestamp): (r: Result<Store>)
    ensures r.Err? && r.error == Invalid <==>
              name == "" || category == "" || !Truthy(quantity) || !PriceGiven(unitPrice)
    ensures r.Err? && r.error == ServerError <==>
              name != "" && category != "" && Truthy(quantity) && PriceGiven(unitPrice) &&
              (!FitsColumn(name, MaxNameLength) || !FitsColumn(category, MaxCategoryLength))
    ensures r.Err? ==> r.error == Invalid || r.error == ServerError
    ensures r.Ok? ==> FitsColumn(name, MaxNameLength) && FitsColumn(category, MaxCategoryLength)
    ensures r.Ok? ==>
              && r.value.nextPartId == s.nextPartId + 1
              && r.value.nextStockInId == s.nextStockInId + (if quantity.value > 0 then 1 else 0)
              && r.value.nextStockOutId == s.nextStockOutId
    ensures r.Ok? ==>
              && r.value.parts.Keys == s.parts.Keys + {s.nextPartId}
              && (forall id :: id in s.parts && id != s.nextPartId ==> r.value.parts[id] == s.parts[id])
              && r.value.parts[s.nextPartId] ==
                   Part(ColumnValue(name, MaxNameLength), ColumnValue(category, MaxCategoryLength),
                        quantity.value, unitPrice.value.cents, now)
              && r.value.stockOuts == s.stockOuts
    ensures r.Ok? ==> quantity.value > 0 ==>
              r.value.stockIns == s.stockIns + [StockIn(s.nextStockInId, s.nextPartId, quantity.value, now)]
    ensures r.Ok? ==> quantity.value < 0 ==> r.value.stockIns == s.stockIns
  {
    if name == "" || category == "" || !Truthy(quantity) || !PriceGiven(unitPrice) then Err(Invalid)
    else if !FitsColumn(name, MaxNameLength) || !FitsColumn(category, MaxCategoryLength) then Err(ServerError)
    else
      var id := s.nextPartId;
      var q := quantity.value;
      var p := Part(ColumnValue(name, MaxNameLength), ColumnValue(category, MaxCategoryLength),
                    q, unitPrice.value.cents, now);
      var created := s.(parts := s.parts[id := p],
                        nextPartId := id + 1);
      if q > 0 then
        Ok(created.(stockIns := s.stockIns + [StockIn(s.nextStockInId, id, q, now)],
                    nextStockInId := s.nextStockInId + 1))
      else Ok(created)
  }

  // ---------------------------------------------------------------------------
  // POST /api/stock-in

  /** Records `quantity` units of the part whose id text is `partId`
      arriving and adds them to its on-hand quantity. A text that names no
      part violates the foreign key of `Stock_In`, and the transaction is
      rolled back with status 500. */
  function StockInOp(s: Store, partId: Option<string>, quantity: Option<int>, now: Timestamp): (r: Result<Store>)
    ensures r.Err? && r.error == Invalid <==> !TextGiven(partId) || !Truthy(quantity) || quantity.value < 0
    ensures r.Err? && r.error == ServerError <==>
              TextGiven(partId) && Truthy(quantity) && quantity.value > 0 && !Names(s, partId.value)
    ensures r.Err? ==> r.error == Invalid || r.error == ServerError
    ensures r.Ok? ==>
              && Names(s, partId.value)
              && var pid := NamedId(partId.value).value;
              && r.value.parts.Keys == s.parts.Keys
              && r.value.parts[pid].quantity == s.parts[pid].quantity + quantity.value
              && r.value.parts[pid] == s.parts[pid].(quantity := r.value.parts[pid].quantity)
              && (forall id :: id in s.parts && id != pid ==> r.value.parts[id] == s.parts[id])
              && r.value.stockIns == s.stockIns + [StockIn(s.nextStockInId, pid, quantity.value, now)]
              && r.value.stockOuts == s.stockOuts
    ensures r.Ok? ==>
              && r.value.nextStockInId == s.nextStockInId + 1
              && r.value.nextPartId == s.nextPartId
              && r.value.nextStockOutId == s.nextStockOutId
  {
    if !TextGiven(partId) || !Truthy(quantity) || quantity.value <= 0 then Err(Invalid)
    else if !Names(s, partId.value) then Err(ServerError)
    else
      var pid := NamedId(partId.value).value;
      var q := quantity.value;
      Ok(s.(stockIns := s.stockIns + [StockIn(s.nextStockInId, pid, q, now)],
            nextStockInId := s.nextStockInId + 1,
            parts := Adjust(s.parts, pid, q)))
  }

  // ---------------------------------------------------------------------------
  // POST /api/stock-out

  /** Records `quantity` units of the part whose id text is `partId` leaving
      at `unitPrice`, after checking the part exists (404) and holds at
      least that many (400). */
  function StockOutOp(s: Store, partId: Option<string>, quantity: Option<int>, unitPrice: Option<Price>,
                      now: Timestamp): (r: Result<Store>)
    ensures r.Err? && r.error == Invalid <==>
              !TextGiven(partId) || !Truthy(quantity) || !PriceGiven(unitPrice) || quantity.value < 0
    ensures r.Err? && r.error == NotFound <==>
              TextGiven(partId) && Truthy(quantity) && PriceGiven(unitPrice) && quantity.value > 0 &&
              !Names(s, partId.value)
    ensures r.Err? && r.error == NotEnoughStock <==>
              TextGiven(partId) && Truthy(quantity) && PriceGiven(unitPrice) && quantity.value > 0 &&
              Names(s, partId.value) && s.parts[NamedId(partId.value).value].quantity < quantity.value
    ensures r.Err? ==> r.error != ServerError
    ensures r.Ok? ==>
              && Names(s, partId.value)
              && var pid := NamedId(partId.value).value;
              && r.value.parts.Keys == s.parts.Keys
              && r.value.parts[pid].quantity == s.parts[pid].quantity - quantity.value
              && r.value.parts[pid].quantity >= 0
              && r.value.parts[pid] == s.parts[pid].(quantity := r.value.parts[pid].quantity)
              && (forall id :: id in s.parts && id != pid ==> r.value.parts[id] == s.parts[id])
              && r.value.stockOuts == s.stockOuts +
                   [StockOut(s.nextStockOutId, pid, quantity.value, unitPrice.value.cents, now)]
              && r.value.stockIns == s.stockIns
    ensures r.Ok? ==>
              && r.value.nextStockOutId == s.nextStockOutId + 1
              && r.value.nextPartId == s.nextPartId
              && r.value.nextStockInId == s.nextStockInId
  {
    if !TextGiven(partId) || !Truthy(quantity) || !PriceGiven(unitPrice) || quantity.value <= 0 then Err(Invalid)
    else if !Names(s, partId.value) then Err(NotFound)
    else
      var pid := NamedId(partId.value).value;
      var q := quantity.value;
      if s.parts[pid].quantity < q then Err(NotEnoughStock)
      else
        Ok(s.(stockOuts := s.stockOuts + [StockOut(s.nextStockOutId, pid, q, unitPrice.value.cents, now)],
              nextStockOutId := s.nextStockOutId + 1,
              parts := Adjust(s.parts, pid, -q)))
  }

  // ---------------------------------------------------------------------------
  // Looking a stock-out record up by id

  /** The position of the first stock-out row with id `id`. */
  function FindStockOut(outs: seq<StockOut>, id: int): (r: Option<nat>)
    ensures r.None? <==> forall i :: 0 <= i < |outs| ==> outs[i].id != id
    ensures r.Some? ==> r.value < |outs| && outs[r.value].id == id
    ensures r.Some? ==> forall i :: 0 <= i < r.value ==> outs[i].id != id
  {
    if |outs| == 0 then None
    else if outs[0].id == id then Some(0)
    else match FindStockOut(outs[1..], id)
      case None => None
      case Some(k) => Some(k + 1)
  }

  // ---------------------------------------------------------------------------
  // PUT /api/stock-out/:id

  /** Sets the quantity and unit price of stock-out record `id`, moving the
      difference between the new and the old quantity out of (or back into)
      the part's stock. Only an increase is checked against the stock on
      hand; when the record's part is missing, an increase fails reading the
      part (500) and a decrease updates no part row. */
  function EditStockOut(s: Store, id: int, quantity: Option<int>, unitPrice: Option<Price>): (r: Result<Store>)
    ensures r.Err? && r.error == Invalid <==> !Truthy(quantity) || !PriceGiven(unitPrice) || quantity.value < 0
    ensures r.Err? && r.error == NotFound <==>
              Truthy(quantity) && PriceGiven(unitPrice) && quantity.value > 0 && FindStockOut(s.stockOuts, id).None?
    ensures FindStockOut(s.stockOuts, id).Some? && Truthy(quantity) && PriceGiven(unitPrice) && quantity.value > 0 ==>
              var e := s.stockOuts[FindStockOut(s.stockOuts, id).value];
              var diff := quantity.value - e.quantity;
              && (r.Err? && r.error == ServerError <==> diff > 0 && e.partId !in s.parts)
              && (r.Err? && r.error == NotEnoughStock <==>
                    diff > 0 && e.partId in s.parts && s.parts[e.partId].quantity < diff)
    ensures r.Ok? ==>
              && r.value.parts.Keys == s.parts.Keys
              && |r.value.stockOuts| == |s.stockOuts|
              && r.value.stockIns == s.stockIns
              && r.value.nextStockOutId == s.nextStockOutId
              && r.value.nextPartId == s.nextPartId
              && r.value.nextStockInId == s.nextStockInId
              && (forall pid :: pid in s.parts && s.parts[pid].quantity >= 0 ==> r.value.parts[pid].quantity >= 0)
    ensures r.Ok? ==>
              && FindStockOut(s.stockOuts, id).Some?
              && var i := FindStockOut(s.stockOuts, id).value;
              && var e := s.stockOuts[i];
              && r.value.stockOuts[i] == e.(quantity := quantity.value, unitPrice := unitPrice.value.cents)
              && (forall k :: 0 <= k < |s.stockOuts| && k != i ==> r.value.stockOuts[k] == s.stockOuts[k])
              && (e.partId in s.parts ==>
                    r.value.parts[e.partId].quantity == s.parts[e.partId].quantity - (quantity.value - e.quantity))
              && (e.partId in s.parts ==>
                    r.value.parts[e.partId] == s.parts[e.partId].(quantity := r.value.parts[e.partId].quantity))
              && (forall pid :: pid in s.parts && pid != e.partId ==> r.value.parts[pid] == s.parts[pid])
  {
    if !Truthy(quantity) || !PriceGiven(unitPrice) || quantity.value <= 0 then Err(Invalid)
    else match FindStockOut(s.stockOuts, id)
      case None => Err(NotFound)
      case Some(i) =>
        var e := s.stockOuts[i];
        var diff := quantity.value - e.quantity;
        if diff > 0 && e.partId !in s.parts then Err(ServerError)
        else if diff > 0 && s.parts[e.partId].quantity < diff then Err(NotEnoughStock)
        else
          Ok(s.(stockOuts := s.stockOuts[i := e.(quantity := quantity.value, unitPrice := unitPrice.value.cents)],
                parts := Adjust(s.parts, e.partId, -diff)))
  }

  // ---------------------------------------------------------------------------
  // DELETE /api/stock-out/:id

  /** Removes stock-out record `id` and returns its quantity to the part's
      stock. */
  function DeleteStockOut(s: Store, id: int): (r: Result<Store>)
    ensures r.Err? <==> forall i :: 0 <= i < |s.stockOuts| ==> s.stockOuts[i].id != id
    ensures r.Err? ==> r.error == NotFound
    ensures r.Ok? ==>
              && r.value.parts.Keys == s.parts.Keys
              && |r.value.stockOuts| == |s.stockOuts| - 1
              && r.value.stockIns == s.stockIns
              && (forall e :: e in r.value.stockOuts ==> e in s.stockOuts)
              && r.value.nextPartId == s.nextPartId
              && r.value.nextStockInId == s.nextStockInId
              && r.value.nextStockOutId == s.nextStockOutId
    ensures r.Ok? ==>
              && FindStockOut(s.stockOuts, id).Some?
              && var i := FindStockOut(s.stockOuts, id).value;
              && var e := s.stockOuts[i];
              && e.id == id
              && r.value.stockOuts == s.stockOuts[..i] + s.stockOuts[i + 1..]
              && (e.partId in s.parts ==>
                    r.value.parts[e.partId].quantity == s.parts[e.partId].quantity + e.quantity)
              && (e.partId in s.parts ==>
                    r.value.parts[e.partId] == s.parts[e.partId].(quantity := r.value.parts[e.partId].quantity))
              && (forall pid :: pid in s.parts && pid != e.partId ==> r.value.parts[pid] == s.parts[pid])
  {
    match FindStockOut(s.stockOuts, id)
    case None => Err(NotFound)
    case Some(i) =>
      var e := s.stockOuts[i];
      Ok(s.(stockOuts := s.stockOuts[..i] + s.stockOuts[i + 1..],
            parts := Adjust(s.parts, e.partId, e.quantity)))
  }

  // ---------------------------------------------------------------------------
  // Every handler keeps the ledger in balance

  /** A positive opening quantity is recorded as the part's first stock-in,
      so the new part is balanced; every other part keeps its movements. */
  lemma CreatePartPreservesValid(s: Store, name: string, category: string,
                                 quantity: Option<int>, unitPrice: Option<Price>, now: Timestamp)
    requires Valid(s)
    requires CreatePart(s, name, category, quantity, unitPrice, now).Ok?
    requires quantity.value > 0
    ensures Valid(CreatePart(s, name, category, quantity, unitPrice, now).value)
  {
    var p := Part(ColumnValue(name, MaxNameLength), ColumnValue(category, MaxCategoryLength),
                  quantity.value, unitPrice.value.cents, now);
    var e := StockIn(s.nextStockInId, s.nextPartId, quantity.value, now);
    assert CreatePart(s, name, category, quantity, unitPrice, now).value ==
           s.(parts := s.parts[s.nextPartId := p], nextPartId := s.nextPartId + 1)
            .(stockIns := s.stockIns + [e], nextStockInId := s.nextStockInId + 1);
    OpenPartPreservesValid(s, p, e);
  }

  /** Adding part `p` under the next id, with its opening quantity recorded
      as stock-in row `e`, keeps the store consistent. */
  lemma OpenPartPreservesValid(s: Store, p: Part, e: StockIn)
    requires Valid(s)
    requires p.quantity > 0
    requires e == StockIn(s.nextStockInId, s.nextPartId, p.quantity, e.date)
    ensures Valid(s.(parts := s.parts[s.nextPartId := p], nextPartId := s.nextPartId + 1)
                   .(stockIns := s.stockIns + [e], nextStockInId := s.nextStockInId + 1))
  {
    OpenPartBalanced(s, p, e);
    OpenPartWellFormed(s, p, e);
  }

  lemma OpenPartBalanced(s: Store, p: Part, e: StockIn)
    requires WellFormed(s) && Balanced(s)
    requires e == StockIn(s.nextStockInId, s.nextPartId, p.quantity, e.date)
    ensures Balanced(s.(parts := s.parts[s.nextPartId := p], nextPartId := s.nextPartId + 1)
                      .(stockIns := s.stockIns + [e], nextStockInId := s.nextStockInId + 1))
  {
    var id := s.nextPartId;
    var t := s.(parts := s.parts[id := p], nextPartId := id + 1)
              .(stockIns := s.stockIns + [e], nextStockInId := s.nextStockInId + 1);
    assert id !in s.parts;
    NoRowsForUnknownPart(s, id);
    forall pid | pid in s.parts
      ensures t.parts[pid].quantity - TotalIn(t, pid) + TotalOut(t, pid) ==
              s.parts[pid].quantity - TotalIn(s, pid) + TotalOut(s, pid)
    {
      InTotalAppend(s.stockIns, e, pid);
    }
    forall pid | pid in t.parts && pid !in s.parts
      ensures t.parts[pid].quantity == TotalIn(t, pid) - TotalOut(t, pid)
    {
      InTotalAppend(s.stockIns, e, pid);
    }
    BalancedByMovement(s, t);
  }

  lemma OpenPartWellFormed(s: Store, p: Part, e: StockIn)
    requires WellFormed(s)
    requires e == StockIn(s.nextStockInId, s.nextPartId, p.quantity, e.date) && p.quantity > 0
    ensures WellFormed(s.(parts := s.parts[s.nextPartId := p], nextPartId := s.nextPartId + 1)
                        .(stockIns := s.stockIns + [e], nextStockInId := s.nextStockInId + 1))
  {
    var created := s.(parts := s.parts[s.nextPartId := p], nextPartId := s.nextPartId + 1);
    AddPartKeepsWellFormed(s, p);
    assert created.stockIns == s.stockIns && created.nextStockInId == s.nextStockInId;
    AppendInKeepsWellFormed(created, e);
  }

  /** Adding a part under the next id keeps the tables well formed. */
  lemma AddPartKeepsWellFormed(s: Store, p: Part)
    requires WellFormed(s)
    ensures WellFormed(s.(parts := s.parts[s.nextPartId := p], nextPartId := s.nextPartId + 1))
  {
  }

  /** Appending a stock-in row for an existing part, under the next id, keeps
      the tables well formed. */
  lemma AppendInKeepsWellFormed(s: Store, e: StockIn)
    requires WellFormed(s)
    requires e.partId in s.parts && e.quantity > 0 && e.id == s.nextStockInId
    ensures WellFormed(s.(stockIns := s.stockIns + [e], nextStockInId := s.nextStockInId + 1))
  {
    var ins := s.stockIns + [e];
    assert forall i :: 0 <= i < |s.stockIns| ==> ins[i] == s.stockIns[i];
  }

  /** Appending a stock-out row for an existing part, under the next id,
      keeps the tables well formed. */
  lemma AppendOutKeepsWellFormed(s: Store, e: StockOut)
    requires WellFormed(s)
    requires e.partId in s.parts && e.quantity > 0 && e.id == s.nextStockOutId
    ensures WellFormed(s.(stockOuts := s.stockOuts + [e], nextStockOutId := s.nextStockOutId + 1))
  {
    var outs := s.stockOuts + [e];
    assert forall i :: 0 <= i < |s.stockOuts| ==> outs[i] == s.stockOuts[i];
  }

  /** Changing part quantities keeps the tables well formed. */
  lemma AdjustKeepsWellFormed(s: Store, pid: int, delta: int)
    requires WellFormed(s)
    ensures WellFormed(s.(parts := Adjust(s.parts, pid, delta)))
  {
  }

  /** Replacing a stock-out row by one with the same id and part and a valid
      quantity keeps the tables well formed. */
  lemma ReplaceOutKeepsWellFormed(s: Store, i: nat, e: StockOut)
    requires WellFormed(s) && i < |s.stockOuts|
    requires e.id == s.stockOuts[i].id && e.partId == s.stockOuts[i].partId
    requires e.quantity > 0
    ensures WellFormed(s.(stockOuts := s.stockOuts[i := e]))
  {
    var outs := s.stockOuts[i := e];
    assert forall k :: 0 <= k < |outs| && k != i ==> outs[k] == s.stockOuts[k];
    assert forall k :: 0 <= k < |outs| ==> outs[k].id == s.stockOuts[k].id;
  }

  /** A part id no row refers to has no movements. */
  lemma NoRowsForUnknownPart(s: Store, pid: int)
    requires WellFormed(s) && pid !in s.parts
    ensures TotalIn(s, pid) == 0 && TotalOut(s, pid) == 0
  {
    NoInRows(s.stockIns, pid);
    NoOutRows(s.stockOuts, pid);
  }

  lemma {:induction false} NoInRows(ins: seq<StockIn>, pid: int)
    requires forall i :: 0 <= i < |ins| ==> ins[i].partId != pid
    ensures InQuantities(ins, pid) == []
    decreases |ins|
  {
    if |ins| > 0 {
      NoInRows(ins[..|ins| - 1], pid);
    }
  }

  lemma {:induction false} NoOutRows(outs: seq<StockOut>, pid: int)
    requires forall i :: 0 <= i < |outs| ==> outs[i].partId != pid
    ensures OutQuantities(outs, pid) == []
    decreases |outs|
  {
    if |outs| > 0 {
      NoOutRows(outs[..|outs| - 1], pid);
    }
  }

  /** The endpoint accepts a negative opening quantity: the part is created
      with stock below zero and no movement explains it, so the ledger
      invariant is lost. */
  lemma CreatePartAcceptsNegativeQuantity(s: Store, name: string, category: string,
                                          q: int, price: Price, now: Timestamp)
    requires Valid(s)
    requires name != "" && category != "" && q < 0 && price.nonZero
    requires FitsColumn(name, MaxNameLength) && FitsColumn(category, MaxCategoryLength)
    ensures CreatePart(s, name, category, Some(q), Some(price), now).Ok?
    ensures !NonNegative(CreatePart(s, name, category, Some(q), Some(price), now).value)
    ensures !Balanced(CreatePart(s, name, category, Some(q), Some(price), now).value)
  {
    var t := CreatePart(s, name, category, Some(q), Some(price), now).value;
    assert t.stockIns == s.stockIns && t.stockOuts == s.stockOuts;
    NoRowsForUnknownPart(s, s.nextPartId);
    assert s.nextPartId in t.parts;
  }

  /** An opening quantity of zero is refused, although the form allows it. */
  lemma CreatePartRejectsZeroQuantity(s: Store, name: string, category: string,
                                      price: Option<Price>, now: Timestamp)
    ensures CreatePart(s, name, category, Some(0), price, now) == Err(Invalid)
  {
  }

  lemma StockInPreservesValid(s: Store, partId: Option<string>, quantity: Option<int>, now: Timestamp)
    requires Valid(s)
    requires StockInOp(s, partId, quantity, now).Ok?
    ensures Valid(StockInOp(s, partId, quantity, now).value)
    ensures forall pid :: pid in s.parts ==>
              TotalIn(StockInOp(s, partId, quantity, now).value, pid) ==
              TotalIn(s, pid) + (if pid == NamedId(partId.value).value then quantity.value else 0)
  {
    var pid := NamedId(partId.value).value;
    StockInAccepted(s, partId, quantity, now, pid);
    ArrivalPreservesValid(s, StockIn(s.nextStockInId, pid, quantity.value, now));
  }

  /** Recording row `e` as arrived, under the next id, and adding its
      positive quantity to its part keeps the store consistent. */
  lemma ArrivalPreservesValid(s: Store, e: StockIn)
    requires Valid(s)
    requires e.partId in s.parts && e.quantity > 0 && e.id == s.nextStockInId
    ensures var t := s.(stockIns := s.stockIns + [e], nextStockInId := s.nextStockInId + 1)
                      .(parts := Adjust(s.parts, e.partId, e.quantity));
            && Valid(t)
            && forall pid :: pid in s.parts ==>
                 TotalIn(t, pid) == TotalIn(s, pid) + (if pid == e.partId then e.quantity else 0)
  {
    var appended := s.(stockIns := s.stockIns + [e], nextStockInId := s.nextStockInId + 1);
    var t := appended.(parts := Adjust(s.parts, e.partId, e.quantity));
    ArrivalBalanced(s, e);
    AppendInKeepsWellFormed(s, e);
    AdjustKeepsWellFormed(appended, e.partId, e.quantity);
    assert NonNegative(t);
  }

  /** The store an accepted stock-in produces, once its id text is known to
      name part `pid`. */
  lemma StockInAccepted(s: Store, partId: Option<string>, quantity: Option<int>, now: Timestamp, pid: int)
    requires StockInOp(s, partId, quantity, now).Ok?
    requires pid == NamedId(partId.value).value
    ensures pid in s.parts && quantity.value > 0
    ensures StockInOp(s, partId, quantity, now) ==
            Ok(s.(stockIns := s.stockIns + [StockIn(s.nextStockInId, pid, quantity.value, now)],
                  nextStockInId := s.nextStockInId + 1,
                  parts := Adjust(s.parts, pid, quantity.value)))
  {
    assert TextGiven(partId) && Truthy(quantity) && quantity.value > 0;
    assert Names(s, partId.value);
  }

  /** The store an accepted stock-out produces, once its id text is known
      to name part `pid`. */
  lemma StockOutAccepted(s: Store, partId: Option<string>, quantity: Option<int>,
                         unitPrice: Option<Price>, now: Timestamp, pid: int)
    requires StockOutOp(s, partId, quantity, unitPrice, now).Ok?
    requires pid == NamedId(partId.value).value
    ensures pid in s.parts && 0 < quantity.value <= s.parts[pid].quantity
    ensures StockOutOp(s, partId, quantity, unitPrice, now) ==
            Ok(s.(stockOuts := s.stockOuts + [StockOut(s.nextStockOutId, pid, quantity.value, unitPrice.value.cents, now)],
                  nextStockOutId := s.nextStockOutId + 1,
                  parts := Adjust(s.parts, pid, -quantity.value)))
  {
    assert TextGiven(partId) && Truthy(quantity) && PriceGiven(unitPrice) && quantity.value > 0;
    assert Names(s, partId.value) && s.parts[pid].quantity >= quantity.value;
  }

  /** An accepted stock-in keeps the part's unit price, so the generated
      `totalPrice` column of the part rises by the quantity times that
      price. */
  lemma StockInRaisesTotalPrice(s: Store, partId: Option<string>, quantity: Option<int>, now: Timestamp, t: Store)
    requires StockInOp(s, partId, quantity, now) == Ok(t)
    ensures var pid := NamedId(partId.value).value;
            && pid in s.parts && pid in t.parts
            && t.parts[pid].unitPrice == s.parts[pid].unitPrice
            && PartTotalPrice(t.parts[pid]) == PartTotalPrice(s.parts[pid]) + quantity.value * s.parts[pid].unitPrice
  {
    var pid := NamedId(partId.value).value;
    TotalPriceMoved(s.parts[pid], t.parts[pid], quantity.value);
  }

  /** An accepted stock-out keeps the part's unit price, so the generated
      `totalPrice` column of the part falls by the quantity times that
      price; the new record's generated `stockOutTotalPrice` is its
      quantity times the unit price sent with it. */
  lemma StockOutLowersTotalPrice(s: Store, partId: Option<string>, quantity: Option<int>,
                                 unitPrice: Option<Price>, now: Timestamp, t: Store)
    requires StockOutOp(s, partId, quantity, unitPrice, now) == Ok(t)
    ensures var pid := NamedId(partId.value).value;
            && pid in s.parts && pid in t.parts
            && t.parts[pid].unitPrice == s.parts[pid].unitPrice
            && PartTotalPrice(t.parts[pid]) == PartTotalPrice(s.parts[pid]) - quantity.value * s.parts[pid].unitPrice
            && |t.stockOuts| == |s.stockOuts| + 1
            && StockOutTotalPrice(t.stockOuts[|s.stockOuts|]) == quantity.value * unitPrice.value.cents
  {
    var pid := NamedId(partId.value).value;
    TotalPriceMoved(s.parts[pid], t.parts[pid], -quantity.value);
  }

  /** Recording row `e` as arrived and adding its quantity to its part
      raises that part's inflow by the quantity and keeps the ledger
      balanced. */
  lemma ArrivalBalanced(s: Store, e: StockIn)
    requires Balanced(s) && e.partId in s.parts
    ensures var t := s.(stockIns := s.stockIns + [e], nextStockInId := s.nextStockInId + 1)
                      .(parts := Adjust(s.parts, e.partId, e.quantity));
            && Balanced(t)
            && forall pid :: pid in s.parts ==>
                 TotalIn(t, pid) == TotalIn(s, pid) + (if pid == e.partId then e.quantity else 0)
  {
    var t := s.(stockIns := s.stockIns + [e], nextStockInId := s.nextStockInId + 1)
              .(parts := Adjust(s.parts, e.partId, e.quantity));
    forall id | id in s.parts
      ensures TotalIn(t, id) == TotalIn(s, id) + (if id == e.partId then e.quantity else 0)
      ensures t.parts[id].quantity - TotalIn(t, id) + TotalOut(t, id) ==
              s.parts[id].quantity - TotalIn(s, id) + TotalOut(s, id)
    {
      InTotalAppend(s.stockIns, e, id);
    }
    BalancedByMovement(s, t);
  }

  lemma StockOutPreservesValid(s: Store, partId: Option<string>, quantity: Option<int>,
                               unitPrice: Option<Price>, now: Timestamp)
    requires Valid(s)
    requires StockOutOp(s, partId, quantity, unitPrice, now).Ok?
    ensures Valid(StockOutOp(s, partId, quantity, unitPrice, now).value)
  {
    var pid := NamedId(partId.value).value;
    var e := StockOut(s.nextStockOutId, pid, quantity.value, unitPrice.value.cents, now);
    StockOutAccepted(s, partId, quantity, unitPrice, now, pid);
    assert StockOutOp(s, partId, quantity, unitPrice, now).value ==
           s.(stockOuts := s.stockOuts + [e], nextStockOutId := s.nextStockOutId + 1)
            .(parts := Adjust(s.parts, e.partId, -e.quantity));
    DeparturePreservesValid(s, e);
  }

  /** Recording row `e` as shipped, under the next id, and taking its
      positive quantity from a part that holds that many keeps the store
      consistent. */
  lemma DeparturePreservesValid(s: Store, e: StockOut)
    requires Valid(s)
    requires e.partId in s.parts && 0 < e.quantity <= s.parts[e.partId].quantity && e.id == s.nextStockOutId
    ensures Valid(s.(stockOuts := s.stockOuts + [e], nextStockOutId := s.nextStockOutId + 1)
                   .(parts := Adjust(s.parts, e.partId, -e.quantity)))
  {
    var appended := s.(stockOuts := s.stockOuts + [e], nextStockOutId := s.nextStockOutId + 1);
    var t := appended.(parts := Adjust(s.parts, e.partId, -e.quantity));
    DepartureBalanced(s, e);
    AppendOutKeepsWellFormed(s, e);
    AdjustKeepsWellFormed(appended, e.partId, -e.quantity);
    assert NonNegative(t);
  }

  /** Recording row `e` as shipped and taking its quantity from its part
      keeps the ledger balanced. */
  lemma DepartureBalanced(s: Store, e: StockOut)
    requires Balanced(s) && e.partId in s.parts
    ensures Balanced(s.(stockOuts := s.stockOuts + [e], nextStockOutId := s.nextStockOutId + 1)
                      .(parts := Adjust(s.parts, e.partId, -e.quantity)))
  {
    var t := s.(stockOuts := s.stockOuts + [e], nextStockOutId := s.nextStockOutId + 1)
              .(parts := Adjust(s.parts, e.partId, -e.quantity));
    forall id | id in s.parts
      ensures t.parts[id].quantity - TotalIn(t, id) + TotalOut(t, id) ==
              s.parts[id].quantity - TotalIn(s, id) + TotalOut(s, id)
    {
      OutTotalAppend(s.stockOuts, e, id);
    }
    BalancedByMovement(s, t);
  }

  /** Editing a record keeps every part's on-hand quantity plus outflow
      fixed: the quantity moves between the part and the record. */
  lemma EditStockOutConserves(s: Store, id: int, quantity: Option<int>, unitPrice: Option<Price>)
    requires EditStockOut(s, id, quantity, unitPrice).Ok?
    ensures forall pid :: pid in s.parts ==>
              var t := EditStockOut(s, id, quantity, unitPrice).value;
              t.parts[pid].quantity + TotalOut(t, pid) == s.parts[pid].quantity + TotalOut(s, pid)
  {
    var t := EditStockOut(s, id, quantity, unitPrice).value;
    var i := FindStockOut(s.stockOuts, id).value;
    var e := s.stockOuts[i];
    var e' := e.(quantity := quantity.value, unitPrice := unitPrice.value.cents);
    assert t.stockOuts == s.stockOuts[i := e'];
    forall pid | pid in s.parts
      ensures t.parts[pid].quantity + TotalOut(t, pid) == s.parts[pid].quantity + TotalOut(s, pid)
    {
      OutTotalReplace(s.stockOuts, i, e', pid);
    }
  }

  lemma EditStockOutPreservesValid(s: Store, id: int, quantity: Option<int>, unitPrice: Option<Price>)
    requires Valid(s)
    requires EditStockOut(s, id, quantity, unitPrice).Ok?
    ensures Valid(EditStockOut(s, id, quantity, unitPrice).value)
  {
    var t := EditStockOut(s, id, quantity, unitPrice).value;
    EditStockOutConserves(s, id, quantity, unitPrice);
    var i := FindStockOut(s.stockOuts, id).value;
    var e := s.stockOuts[i];
    var e' := e.(quantity := quantity.value, unitPrice := unitPrice.value.cents);
    var diff := quantity.value - e.quantity;
    EditAccepted(s, id, quantity, unitPrice, i, e', e.partId, -diff);
    ReplacementPreservesValid(s, t, i, e', -diff);
  }

  /** Replacing row `i` by `row`, same id and part and a positive quantity,
      and moving the part's quantity by `d` so that quantity plus outflow
      stays fixed, keeps the store consistent when no part goes negative. */
  lemma ReplacementPreservesValid(s: Store, t: Store, i: nat, row: StockOut, d: int)
    requires Valid(s) && i < |s.stockOuts|
    requires row.id == s.stockOuts[i].id && row.partId == s.stockOuts[i].partId && row.quantity > 0
    requires t == s.(stockOuts := s.stockOuts[i := row], parts := Adjust(s.parts, row.partId, d))
    requires NonNegative(t)
    requires forall pid :: pid in s.parts ==>
               t.parts[pid].quantity + TotalOut(t, pid) == s.parts[pid].quantity + TotalOut(s, pid)
    ensures Valid(t)
  {
    var replaced := s.(stockOuts := s.stockOuts[i := row]);
    ReplaceOutKeepsWellFormed(s, i, row);
    AdjustKeepsWellFormed(replaced, row.partId, d);
    assert t == replaced.(parts := Adjust(replaced.parts, row.partId, d));
    BalancedByConservation(s, t);
  }

  /** A store in which every old part's on-hand quantity moved exactly as
      its inflow minus its outflow, and every new part is balanced, is
      balanced when the original was. */
  lemma BalancedByMovement(s: Store, t: Store)
    requires Balanced(s)
    requires s.parts.Keys <= t.parts.Keys
    requires forall pid :: pid in s.parts ==>
               t.parts[pid].quantity - TotalIn(t, pid) + TotalOut(t, pid) ==
               s.parts[pid].quantity - TotalIn(s, pid) + TotalOut(s, pid)
    requires forall pid :: pid in t.parts && pid !in s.parts ==>
               t.parts[pid].quantity == TotalIn(t, pid) - TotalOut(t, pid)
    ensures Balanced(t)
  {
  }

  /** A store whose parts each keep their on-hand quantity plus outflow,
      with inflow unchanged, is balanced when the original was. */
  lemma BalancedByConservation(s: Store, t: Store)
    requires Balanced(s)
    requires t.parts.Keys == s.parts.Keys && t.stockIns == s.stockIns
    requires forall pid :: pid in s.parts ==>
               t.parts[pid].quantity + TotalOut(t, pid) == s.parts[pid].quantity + TotalOut(s, pid)
    ensures Balanced(t)
  {
  }

  /** Deleting a record keeps every part's on-hand quantity plus outflow
      fixed: the record's quantity goes back to its part. */
  lemma DeleteStockOutConserves(s: Store, id: int)
    requires DeleteStockOut(s, id).Ok?
    ensures forall pid :: pid in s.parts ==>
              var t := DeleteStockOut(s, id).value;
              t.parts[pid].quantity + TotalOut(t, pid) == s.parts[pid].quantity + TotalOut(s, pid)
  {
    var t := DeleteStockOut(s, id).value;
    var i := FindStockOut(s.stockOuts, id).value;
    forall pid | pid in s.parts
      ensures t.parts[pid].quantity + TotalOut(t, pid) == s.parts[pid].quantity + TotalOut(s, pid)
    {
      OutTotalRemove(s.stockOuts, i, pid);
    }
  }

  lemma DeleteStockOutPreservesValid(s: Store, id: int)
    requires Valid(s)
    requires DeleteStockOut(s, id).Ok?
    ensures Valid(DeleteStockOut(s, id).value)
  {
    var t := DeleteStockOut(s, id).value;
    var i := FindStockOut(s.stockOuts, id).value;
    var e := s.stockOuts[i];
    assert t == s.(stockOuts := s.stockOuts[..i] + s.stockOuts[i + 1..],
                   parts := Adjust(s.parts, e.partId, e.quantity));
    DeleteStockOutConserves(s, id);
    BalancedByConservation(s, t);
    assert e.quantity > 0;
    assert NonNegative(t);
    RemoveKeepsWellFormed(s, i, t.parts);
  }

  /** Dropping a stock-out row, with the part quantities changed in any way,
      keeps the tables well formed. */
  lemma RemoveKeepsWellFormed(s: Store, i: nat, parts: map<int, Part>)
    requires WellFormed(s) && i < |s.stockOuts|
    requires parts.Keys == s.parts.Keys
    ensures WellFormed(s.(stockOuts := s.stockOuts[..i] + s.stockOuts[i + 1..], parts := parts))
  {
    var outs := s.stockOuts;
    var rest := outs[..i] + outs[i + 1..];
    assert forall k :: 0 <= k < |rest| ==> rest[k] == outs[if k < i then k else k + 1];
  }

  // ---------------------------------------------------------------------------
  // Inverse operations

  /** Deleting the record a stock-out just created gives back the store it
      started from; only the id counter has moved on. */
  lemma DeleteUndoesStockOut(s: Store, partId: Option<string>, quantity: Option<int>,
                             unitPrice: Option<Price>, now: Timestamp)
    requires WellFormed(s)
    requires StockOutOp(s, partId, quantity, unitPrice, now).Ok?
    ensures DeleteStockOut(StockOutOp(s, partId, quantity, unitPrice, now).value, s.nextStockOutId) ==
            Ok(s.(nextStockOutId := s.nextStockOutId + 1))
  {
    var pid := NamedId(partId.value).value;
    var e := StockOut(s.nextStockOutId, pid, quantity.value, unitPrice.value.cents, now);
    StockOutAccepted(s, partId, quantity, unitPrice, now, pid);
    var t := StockOutOp(s, partId, quantity, unitPrice, now).value;
    assert t == s.(stockOuts := s.stockOuts + [e], nextStockOutId := s.nextStockOutId + 1)
                 .(parts := Adjust(s.parts, e.partId, -e.quantity));
    DeleteUndoesDeparture(s, e);
  }

  /** Deleting row `e` right after recording it as shipped, under the next
      id, gives back the parts and rows the store started with. */
  lemma DeleteUndoesDeparture(s: Store, e: StockOut)
    requires WellFormed(s) && e.partId in s.parts && e.id == s.nextStockOutId
    ensures var t := s.(stockOuts := s.stockOuts + [e], nextStockOutId := s.nextStockOutId + 1)
                      .(parts := Adjust(s.parts, e.partId, -e.quantity));
            DeleteStockOut(t, e.id) == Ok(s.(nextStockOutId := s.nextStockOutId + 1))
  {
    var t := s.(stockOuts := s.stockOuts + [e], nextStockOutId := s.nextStockOutId + 1)
              .(parts := Adjust(s.parts, e.partId, -e.quantity));
    var n := |s.stockOuts|;
    var found := FindStockOut(t.stockOuts, e.id);
    assert t.stockOuts[n].id == e.id;
    assert found.Some?;
    assert t.stockOuts[..n] + t.stockOuts[n + 1..] == s.stockOuts;
    assert Adjust(t.parts, e.partId, e.quantity) == s.parts;
  }

  /** Replacing the first row with a given id by a row with the same id
      leaves it the first. */
  lemma FindAfterReplace(outs: seq<StockOut>, i: nat, e: StockOut)
    requires FindStockOut(outs, e.id) == Some(i)
    ensures FindStockOut(outs[i := e], e.id) == Some(i)
  {
    assert outs[i := e][i].id == e.id;
  }

  /** Editing a record and then editing it back to its old quantity and
      price gives back the store it started from. A record stored at
      `0.00` cannot be edited back: its old price is sent as `0` and
      refused. */
  lemma EditBackRestores(s: Store, id: int, quantity: Option<int>, unitPrice: Option<Price>)
    requires Valid(s)
    requires EditStockOut(s, id, quantity, unitPrice).Ok?
    ensures var i := FindStockOut(s.stockOuts, id).value;
            var e := s.stockOuts[i];
            var back := EditStockOut(EditStockOut(s, id, quantity, unitPrice).value, id,
                                     Some(e.quantity), Some(ExactPrice(e.unitPrice)));
            && (e.unitPrice != 0 ==> back == Ok(s))
            && (e.unitPrice == 0 ==> back == Err(Invalid))
  {
    var i := FindStockOut(s.stockOuts, id).value;
    var e := s.stockOuts[i];
    assert e.partId in s.parts && s.parts[e.partId].quantity >= 0;
    assert e.quantity > 0;
    if e.unitPrice != 0 {
      EditBack(s, id, quantity, unitPrice, i);
    }
  }

  /** Editing a record back to its old quantity and price is accepted and
      gives back the store the first edit started from. */
  lemma EditBack(s: Store, id: int, quantity: Option<int>, unitPrice: Option<Price>, i: nat)
    requires EditStockOut(s, id, quantity, unitPrice).Ok?
    requires FindStockOut(s.stockOuts, id) == Some(i)
    requires s.stockOuts[i].partId in s.parts && s.parts[s.stockOuts[i].partId].quantity >= 0
    requires s.stockOuts[i].quantity > 0 && s.stockOuts[i].unitPrice != 0
    ensures EditStockOut(EditStockOut(s, id, quantity, unitPrice).value, id,
                         Some(s.stockOuts[i].quantity), Some(ExactPrice(s.stockOuts[i].unitPrice))) == Ok(s)
  {
    var e := s.stockOuts[i];
    var e' := e.(quantity := quantity.value, unitPrice := unitPrice.value.cents);
    var diff := quantity.value - e.quantity;
    var t := s.(stockOuts := s.stockOuts[i := e'], parts := Adjust(s.parts, e.partId, -diff));
    EditAccepted(s, id, quantity, unitPrice, i, e', e.partId, -diff);
    EditBackFrom(s, t, id, i, e');
  }

  /** Editing row `i` back, after it became `row` and its part moved by
      the change in quantity (giving `t`), is accepted and gives back `s`. */
  lemma EditBackFrom(s: Store, t: Store, id: int, i: nat, row: StockOut)
    requires FindStockOut(s.stockOuts, id) == Some(i)
    requires row == s.stockOuts[i].(quantity := row.quantity, unitPrice := row.unitPrice)
    requires s.stockOuts[i].partId in s.parts && s.parts[s.stockOuts[i].partId].quantity >= 0
    requires s.stockOuts[i].quantity > 0 && s.stockOuts[i].unitPrice != 0
    requires t == s.(stockOuts := s.stockOuts[i := row],
                     parts := Adjust(s.parts, s.stockOuts[i].partId, s.stockOuts[i].quantity - row.quantity))
    ensures EditStockOut(t, id, Some(s.stockOuts[i].quantity), Some(ExactPrice(s.stockOuts[i].unitPrice))) == Ok(s)
  {
    var e := s.stockOuts[i];
    var diff := row.quantity - e.quantity;
    var back := t.(stockOuts := t.stockOuts[i := e], parts := Adjust(t.parts, e.partId, diff));
    assert EditStockOut(t, id, Some(e.quantity), Some(ExactPrice(e.unitPrice))) == Ok(back) by {
      FindAfterReplace(s.stockOuts, i, row);
      assert t.stockOuts[i] == row && row.(quantity := e.quantity, unitPrice := e.unitPrice) == e;
      assert PriceGiven(Some(ExactPrice(e.unitPrice))) && ExactPrice(e.unitPrice).cents == e.unitPrice;
      assert e.partId in t.parts && t.parts[e.partId].quantity == s.parts[e.partId].quantity - diff;
      EditAccepted(t, id, Some(e.quantity), Some(ExactPrice(e.unitPrice)), i, e, e.partId, diff);
    }
    assert back == s by {
      assert -diff == e.quantity - row.quantity;
      RestoreRow(s, i, row, diff);
    }
  }

  /** Putting row `i` back and undoing the move of its part's quantity
      gives back the store. */
  lemma RestoreRow(s: Store, i: nat, row: StockOut, d: int)
    requires i < |s.stockOuts|
    ensures var pid := s.stockOuts[i].partId;
            var t := s.(stockOuts := s.stockOuts[i := row], parts := Adjust(s.parts, pid, -d));
            t.(stockOuts := t.stockOuts[i := s.stockOuts[i]], parts := Adjust(t.parts, pid, d)) == s
  {
    var pid := s.stockOuts[i].partId;
    AdjustInverse(s.parts, pid, d);
    assert s.stockOuts[i := row][i := s.stockOuts[i]] == s.stockOuts;
  }

  /** The store an accepted edit of the row at `i` produces: the row
      becomes `row` and part `pid` moves by `delta`. */
  lemma EditAccepted(s: Store, id: int, quantity: Option<int>, unitPrice: Option<Price>, i: nat,
                     row: StockOut, pid: int, delta: int)
    requires FindStockOut(s.stockOuts, id) == Some(i)
    requires Truthy(quantity) && PriceGiven(unitPrice) && quantity.value > 0
    requires row == s.stockOuts[i].(quantity := quantity.value, unitPrice := unitPrice.value.cents)
    requires pid == s.stockOuts[i].partId && delta == s.stockOuts[i].quantity - quantity.value
    requires delta < 0 ==> pid in s.parts && s.parts[pid].quantity >= -delta
    ensures EditStockOut(s, id, quantity, unitPrice) ==
            Ok(s.(stockOuts := s.stockOuts[i := row], parts := Adjust(s.parts, pid, delta)))
  {
  }

  /** Adjusting a part's quantity by `-d` and then by `d` changes nothing. */
  lemma AdjustInverse(parts: map<int, Part>, pid: int, d: int)
    ensures Adjust(Adjust(parts, pid, -d), pid, d) == parts
  {
  }

  // ---------------------------------------------------------------------------
  // A sequence of requests

  datatype Request =
    | CreatePartRequest(name: string, category: string, quantity: Option<int>, unitPrice: Option<Price>)
    | StockInRequest(partId: Option<string>, stockInQuantity: Option<int>)
    | StockOutRequest(outPartId: Option<string>, stockOutQuantity: Option<int>, stockOutUnitPrice: Option<Price>)
    | EditStockOutRequest(id: int, newQuantity: Option<int>, newUnitPrice: Option<Price>)
    | DeleteStockOutRequest(deleteId: int)

  /** The handler a request is routed to. */
  function Handle(s: Store, req: Request, now: Timestamp): Result<Store> {
    match req
    case CreatePartRequest(name, category, q, p) => CreatePart(s, name, category, q, p, now)
    case StockInRequest(pid, q) => StockInOp(s, pid, q, now)
    case StockOutRequest(pid, q, p) => StockOutOp(s, pid, q, p, now)
    case EditStockOutRequest(id, q, p) => EditStockOut(s, id, q, p)
    case DeleteStockOutRequest(id) => DeleteStockOut(s, id)
  }

  /** The store after each request in turn, a refused request leaving it as
      it was. */
  function Replay(s: Store, reqs: seq<(Request, Timestamp)>): Store
    decreases |reqs|
  {
    if |reqs| == 0 then s
    else
      var next := match Handle(s, reqs[0].0, reqs[0].1)
                  case Ok(t) => t
                  case Err(_) => s;
      Replay(next, reqs[1..])
  }

  /** The request would create a part with a negative opening quantity. */
  predicate NegativeOpening(req: Request) {
    req.CreatePartRequest? && req.quantity.Some? && req.quantity.value < 0
  }

  /** Any request the server accepts, other than one opening a part with
      negative stock, keeps a consistent store consistent. */
  lemma HandlePreservesValid(s: Store, req: Request, now: Timestamp)
    requires Valid(s) && !NegativeOpening(req)
    requires Handle(s, req, now).Ok?
    ensures Valid(Handle(s, req, now).value)
  {
    match req
    case CreatePartRequest(name, category, q, p) =>
      CreatePartPreservesValid(s, name, category, q, p, now);
    case StockInRequest(pid, q) =>
      StockInPreservesValid(s, pid, q, now);
    case StockOutRequest(pid, q, p) =>
      StockOutPreservesValid(s, pid, q, p, now);
    case EditStockOutRequest(id, q, p) =>
      EditStockOutPreservesValid(s, id, q, p);
    case DeleteStockOutRequest(id) =>
      DeleteStockOutPreservesValid(s, id);
  }

  /** Starting from a consistent store, any run of requests that never opens a
      part with negative stock leaves the store consistent. */
  lemma {:induction false} ReplayPreservesValid(s: Store, reqs: seq<(Request, Timestamp)>)
    requires Valid(s)
    requires forall k :: 0 <= k < |reqs| ==> !NegativeOpening(reqs[k].0)
    ensures Valid(Replay(s, reqs))
    decreases |reqs|
  {
    if |reqs| > 0 {
      var (req, now) := reqs[0];
      var r := Handle(s, req, now);
      if r.Ok? {
        HandlePreservesValid(s, req, now);
      }
      assert forall k :: 0 <= k < |reqs| - 1 ==> reqs[1..][k] == reqs[k + 1];
      var next := if r.Ok? then r.value else s;
      ReplayPreservesValid(next, reqs[1..]);
    }
  }
}
