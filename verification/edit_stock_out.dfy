/** The stock-out edit form (frontend EditStockOut.jsx): it loads a
    record's quantity and unit price as text, checks both, and sends them
    back with `PUT /api/stock-out/:id`. Unlike the entry form it makes no
    stock check; that is left to the server. */
module EditStockOut {
  import opened Prelude
  import opened Text
  import opened Forms
  import Inventory
  import Ledger

  /** `formData`. */
  datatype Form = Form(stockOutQuantity: string, stockOutUnitPrice: string)

  datatype Field = StockOutQuantity | StockOutUnitPrice

  /** The record as fetched: the quantity's `toString()` and the
      `DECIMAL(10, 2)` price, which arrives as its two-decimal text. What is
      loaded reads back as the record's own values. */
  function Load(e: Inventory.StockOut): (r: Form)
    ensures ParseInt(r.stockOutQuantity) == Some(e.quantity)
    ensures SentPrice(r.stockOutUnitPrice) == Some(Ledger.ExactPrice(e.unitPrice))
  {
    IntTextRoundTrip(e.quantity);
    SentPriceOfCentsText(e.unitPrice);
    Form(IntText(e.quantity), CentsText(e.unitPrice))
  }

  /** `handleChange`: the named field takes `value`, the other keeps its
      text. */
  function HandleChange(f: Form, field: Field, value: string): (r: Form)
    ensures field == StockOutQuantity ==> r.stockOutQuantity == value && r.stockOutUnitPrice == f.stockOutUnitPrice
    ensures field == StockOutUnitPrice ==> r.stockOutUnitPrice == value && r.stockOutQuantity == f.stockOutQuantity
  {
    match field
    case StockOutQuantity => f.(stockOutQuantity := value)
    case StockOutUnitPrice => f.(stockOutUnitPrice := value)
  }

  /** `validateForm`. */
  function Validate(f: Form): (errors: Errors<Field>)
    ensures StockOutQuantity in errors <==> QuantityMessage(f.stockOutQuantity).Some?
    ensures StockOutUnitPrice in errors <==> PriceMessage(f.stockOutUnitPrice).Some?
    ensures StockOutQuantity in errors ==> errors[StockOutQuantity] == QuantityMessage(f.stockOutQuantity).value
    ensures StockOutUnitPrice in errors ==> errors[StockOutUnitPrice] == PriceMessage(f.stockOutUnitPrice).value
  {
    var e0: Errors<Field> := map[];
    var e1 := Record(e0, StockOutQuantity, QuantityMessage(f.stockOutQuantity));
    Record(e1, StockOutUnitPrice, PriceMessage(f.stockOutUnitPrice))
  }

  predicate IsValid(f: Form) {
    |Validate(f)| == 0
  }

  /** The body of the `PUT` request. */
  datatype Payload = Payload(stockOutQuantity: Option<int>, stockOutUnitPrice: Option<Ledger.Price>)

  /** `handleSubmit`: a valid form sends `parseInt` of the quantity, which
      is then positive or NaN, and `parseFloat` of the price, which is then
      a non-zero number or NaN. */
  function Submit(f: Form): (r: Option<Payload>)
    ensures r.Some? <==> QuantityMessage(f.stockOutQuantity).None? && PriceMessage(f.stockOutUnitPrice).None?
    ensures r.Some? && r.value.stockOutQuantity.Some? ==> r.value.stockOutQuantity.value > 0
    ensures r.Some? && r.value.stockOutUnitPrice.Some? ==>
              r.value.stockOutUnitPrice.value.nonZero && r.value.stockOutUnitPrice.value.cents >= 0
  {
    if !IsValid(f) then None
    else
      assert Validate(f).Keys == {};
      AcceptedQuantity(f.stockOutQuantity);
      AcceptedPrice(f.stockOutUnitPrice);
      Some(Payload(ParseInt(f.stockOutQuantity), SentPrice(f.stockOutUnitPrice)))
  }

  /** A form holding the text of an integer and of an amount in cents is
      sent exactly when both are positive, and then sends those values. */
  lemma SubmitRoundTrip(n: int, cents: int)
    ensures Submit(Form(IntText(n), CentsText(cents))).Some? <==> n > 0 && cents > 0
    ensures n > 0 && cents > 0 ==>
              Submit(Form(IntText(n), CentsText(cents))) == Some(Payload(Some(n), Some(Ledger.ExactPrice(cents))))
  {
    QuantityOfIntText(n);
    PriceOfCentsText(cents);
    IntTextRoundTrip(n);
    SentPriceOfCentsText(cents);
  }

  /** The loaded record is accepted as it stands exactly when its quantity
      and price are positive, and resubmitting it sends the record's own
      values. */
  lemma LoadedRecordResubmits(e: Inventory.StockOut)
    ensures IsValid(Load(e)) <==> e.quantity > 0 && e.unitPrice > 0
    ensures e.quantity > 0 && e.unitPrice > 0 ==>
              Submit(Load(e)) == Some(Payload(Some(e.quantity), Some(Ledger.ExactPrice(e.unitPrice))))
  {
    SubmitRoundTrip(e.quantity, e.unitPrice);
  }

  /** Saving a record without changing it leaves the inventory exactly as
      it was: the quantity difference is 0, so no stock moves. */
  lemma UnchangedSaveKeepsStore(s: Inventory.Store, i: nat)
    requires Inventory.WellFormed(s)
    requires i < |s.stockOuts| && s.stockOuts[i].unitPrice > 0
    ensures var e := s.stockOuts[i];
            Submit(Load(e)).Some? &&
            Ledger.EditStockOut(s, e.id, Submit(Load(e)).value.stockOutQuantity,
                                Submit(Load(e)).value.stockOutUnitPrice) == Ledger.Ok(s)
  {
    var e := s.stockOuts[i];
    assert e.quantity > 0;
    LoadedRecordResubmits(e);
    FoundAt(s, i);
    SameValuesKeepStore(s, i);
  }

  /** `PUT` with a record's own quantity and price changes nothing. */
  lemma SameValuesKeepStore(s: Inventory.Store, i: nat)
    requires i < |s.stockOuts| && s.stockOuts[i].quantity > 0 && s.stockOuts[i].unitPrice != 0
    requires Ledger.FindStockOut(s.stockOuts, s.stockOuts[i].id) == Some(i)
    ensures Ledger.EditStockOut(s, s.stockOuts[i].id, Some(s.stockOuts[i].quantity),
                                Some(Ledger.ExactPrice(s.stockOuts[i].unitPrice))) == Ledger.Ok(s)
  {
    var e := s.stockOuts[i];
    Ledger.EditAccepted(s, e.id, Some(e.quantity), Some(Ledger.ExactPrice(e.unitPrice)), i, e, e.partId, 0);
    assert s.stockOuts[i := e] == s.stockOuts;
    AdjustByZero(s.parts, e.partId);
  }

  /** Ids are distinct, so a record is found at its own position. */
  lemma FoundAt(s: Inventory.Store, i: nat)
    requires Inventory.StockOutIdsDistinct(s)
    requires i < |s.stockOuts|
    ensures Ledger.FindStockOut(s.stockOuts, s.stockOuts[i].id) == Some(i)
  {
  }

  lemma AdjustByZero(parts: map<int, Inventory.Part>, pid: int)
    ensures Ledger.Adjust(parts, pid, 0) == parts
  {
  }
}
