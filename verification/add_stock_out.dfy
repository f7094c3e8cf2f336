/** The stock-out entry form (frontend AddStockOut.jsx): choosing a part
    copies its unit price into the form, the quantity is checked against
    the chosen part's stock, and only a form without errors is submitted. */
module AddStockOut {
  import opened Prelude
  import opened Text
  import opened Forms
  import Inventory
  import Ledger

  /** A row of `GET /api/spare-parts` as the form uses it; the unit price
      is in cents. */
  datatype PartOption = PartOption(id: int, name: string, quantity: int, unitPrice: int)

  /** `formData`. */
  datatype Form = Form(sparePartId: string, stockOutQuantity: string, stockOutUnitPrice: string)

  /** The component state the validator reads: the form and `selectedPart`. */
  datatype State = State(form: Form, selected: Option<PartOption>)

  const Initial: State := State(Form("", "", ""), None)

  /** The `name` attributes of the form's inputs. */
  datatype Field = SparePartId | StockOutQuantity | StockOutUnitPrice

  function Get(f: Form, field: Field): string {
    match field
    case SparePartId => f.sparePartId
    case StockOutQuantity => f.stockOutQuantity
    case StockOutUnitPrice => f.stockOutUnitPrice
  }

  /** `{...prev, [name]: value}`: the named field takes `value`, the others
      keep theirs. */
  function Set(f: Form, field: Field, value: string): (r: Form)
    ensures Get(r, field) == value
    ensures forall other :: other != field ==> Get(r, other) == Get(f, other)
  {
    match field
    case SparePartId => f.(sparePartId := value)
    case StockOutQuantity => f.(stockOutQuantity := value)
    case StockOutUnitPrice => f.(stockOutUnitPrice := value)
  }

  /** `parts.find(p => p.id.toString() === value)`. */
  function FindPart(parts: seq<PartOption>, value: string): (r: Option<PartOption>)
    ensures r.Some? ==> r.value in parts && IntText(r.value.id) == value
    ensures r.None? ==> forall p :: p in parts ==> IntText(p.id) != value
  {
    if |parts| == 0 then None
    else if IntText(parts[0].id) == value then Some(parts[0])
    else FindPart(parts[1..], value)
  }

  /** `handleChange`. Choosing a part (a non-empty `sparePartId`) selects
      it and copies its unit price into the form; `None` stands for the
      `TypeError` raised when no listed part has that id. Any other change
      sets just the named field. */
  function HandleChange(parts: seq<PartOption>, st: State, field: Field, value: string): (r: Option<State>)
    ensures field != SparePartId || value == "" ==>
              r.Some? && r.value.selected == st.selected &&
              Get(r.value.form, field) == value &&
              forall other :: other != field ==> Get(r.value.form, other) == Get(st.form, other)
    ensures field == SparePartId && value != "" ==>
              (r.Some? <==> exists p :: p in parts && IntText(p.id) == value)
    ensures r.Some? && field == SparePartId && value != "" ==>
              r.value.selected.Some? && r.value.selected.value in parts &&
              IntText(r.value.selected.value.id) == value &&
              r.value.form == Form(value, st.form.stockOutQuantity, CentsText(r.value.selected.value.unitPrice))
  {
    if field == SparePartId && value != "" then
      match FindPart(parts, value)
      case None => None
      case Some(p) => Some(State(st.form.(sparePartId := value, stockOutUnitPrice := CentsText(p.unitPrice)), Some(p)))
    else
      Some(State(Set(st.form, field, value), st.selected))
  }

  /** The `sparePartId` query parameter handled after the parts load: a
      listed part is selected and its price copied; anything else leaves
      the state as it is. */
  function Prefill(parts: seq<PartOption>, st: State, query: Option<string>): (r: State)
    ensures query.None? || query.value == "" || FindPart(parts, query.value).None? ==> r == st
    ensures query.Some? && query.value != "" && FindPart(parts, query.value).Some? ==>
              r == HandleChange(parts, st, SparePartId, query.value).value
  {
    if query.None? || query.value == "" then st
    else match FindPart(parts, query.value)
      case None => st
      case Some(p) => State(st.form.(sparePartId := query.value, stockOutUnitPrice := CentsText(p.unitPrice)), Some(p))
  }

  /** The quantity chain with the stock check as its last link. */
  function StockOutQuantityMessage(q: string, selected: Option<PartOption>): Option<Message> {
    var m := QuantityMessage(q);
    if m.Some? then m
    else if selected.Some? && IntAbove(q, selected.value.quantity) then Some(NotEnoughStock(selected.value.quantity))
    else None
  }

  /** `validateForm`. */
  function Validate(st: State): (errors: Errors<Field>)
  {
    var f := st.form;
    var e0: Errors<Field> := map[];
    var e1 := Record(e0, SparePartId, if f.sparePartId == "" then Some(SelectPart) else None);
    var e2 := Record(e1, StockOutQuantity, StockOutQuantityMessage(f.stockOutQuantity, st.selected));
    Record(e2, StockOutUnitPrice, PriceMessage(f.stockOutUnitPrice))
  }

  predicate IsValid(st: State) {
    |Validate(st)| == 0
  }

  /** The body of `POST /api/stock-out`: the chosen id text, `parseInt` of
      the quantity and `parseFloat` of the price, `None` where those give
      NaN. */
  datatype Payload = Payload(sparePartId: string, stockOutQuantity: Option<int>, stockOutUnitPrice: Option<Ledger.Price>)

  /** `handleSubmit`: nothing is sent unless the form is valid. A valid
      form never sends a non-positive quantity, one above the chosen part's
      stock, or a zero or negative price. */
  function Submit(st: State): (r: Option<Payload>)
    ensures r.Some? <==> IsValid(st)
    ensures r.Some? ==> r.value.sparePartId == st.form.sparePartId != ""
    ensures r.Some? && r.value.stockOutQuantity.Some? ==>
              r.value.stockOutQuantity.value > 0 &&
              (st.selected.Some? ==> r.value.stockOutQuantity.value <= st.selected.value.quantity)
    ensures r.Some? && r.value.stockOutUnitPrice.Some? ==>
              r.value.stockOutUnitPrice.value.nonZero && r.value.stockOutUnitPrice.value.cents >= 0
  {
    if !IsValid(st) then None
    else
      ValidateFields(st);
      AcceptedPrice(st.form.stockOutUnitPrice);
      Some(Payload(st.form.sparePartId, ParseInt(st.form.stockOutQuantity), SentPrice(st.form.stockOutUnitPrice)))
  }

  /** The three error entries are independent: each field's entry is set
      by its own check alone, and holds that check's message. */
  lemma ValidateFields(st: State)
    ensures SparePartId in Validate(st) <==> st.form.sparePartId == ""
    ensures StockOutQuantity in Validate(st) <==> StockOutQuantityMessage(st.form.stockOutQuantity, st.selected).Some?
    ensures StockOutUnitPrice in Validate(st) <==> PriceMessage(st.form.stockOutUnitPrice).Some?
    ensures SparePartId in Validate(st) ==> Validate(st)[SparePartId] == SelectPart
    ensures StockOutQuantity in Validate(st) ==>
              Validate(st)[StockOutQuantity] == StockOutQuantityMessage(st.form.stockOutQuantity, st.selected).value
    ensures StockOutUnitPrice in Validate(st) ==>
              Validate(st)[StockOutUnitPrice] == PriceMessage(st.form.stockOutUnitPrice).value
  {
  }

  /** For a quantity typed as an integer `n` against a chosen part with
      `available` units: it is accepted exactly when 0 < n <= available
      (so taking the whole stock is allowed), and a positive `n` above the
      stock is reported with the available amount. */
  lemma QuantityAgainstStock(n: int, p: PartOption)
    ensures StockOutQuantityMessage(IntText(n), Some(p)).None? <==> 0 < n <= p.quantity
    ensures n > 0 && n > p.quantity ==>
              StockOutQuantityMessage(IntText(n), Some(p)) == Some(NotEnoughStock(p.quantity))
  {
    QuantityOfIntText(n);
    IntTextRoundTrip(n);
  }

  /** Choosing a listed part fills in its price; that price passes the
      price check exactly when it is positive, and the quantity typed so
      far is kept. */
  lemma ChoosingPartFillsPrice(parts: seq<PartOption>, st: State, i: nat)
    requires i < |parts|
    requires forall j :: 0 <= j < i ==> parts[j].id != parts[i].id
    ensures var r := HandleChange(parts, st, SparePartId, IntText(parts[i].id));
            r.Some? && r.value.selected == Some(parts[i]) &&
            r.value.form.stockOutQuantity == st.form.stockOutQuantity &&
            r.value.form.stockOutUnitPrice == CentsText(parts[i].unitPrice) &&
            (PriceMessage(r.value.form.stockOutUnitPrice).None? <==> parts[i].unitPrice > 0)
  {
    FindFirstMatch(parts, i);
    IntTextNonEmpty(parts[i].id);
    PriceOfCentsText(parts[i].unitPrice);
  }

  /** With distinct ids before position `i`, finding the text of
      `parts[i].id` yields `parts[i]`. */
  lemma {:induction false} FindFirstMatch(parts: seq<PartOption>, i: nat)
    requires i < |parts|
    requires forall j :: 0 <= j < i ==> parts[j].id != parts[i].id
    ensures FindPart(parts, IntText(parts[i].id)) == Some(parts[i])
  {
    if i > 0 {
      IntTextInjective(parts[0].id, parts[i].id);
      FindFirstMatch(parts[1..], i - 1);
    }
  }

  lemma IntTextInjective(a: int, b: int)
    ensures IntText(a) == IntText(b) <==> a == b
  {
    IntTextRoundTrip(a);
    IntTextRoundTrip(b);
  }

  /** A form filled with integer and cents text for a chosen part is
      submitted exactly when 0 < n <= stock and the price is positive, and
      then carries exactly those values. */
  lemma SubmitRoundTrip(p: PartOption, n: int, cents: int)
    ensures var st := State(Form(IntText(p.id), IntText(n), CentsText(cents)), Some(p));
            (Submit(st).Some? <==> 0 < n <= p.quantity && cents > 0) &&
            (Submit(st).Some? ==> Submit(st).value == Payload(IntText(p.id), Some(n), Some(Ledger.ExactPrice(cents))))
  {
    var st := State(Form(IntText(p.id), IntText(n), CentsText(cents)), Some(p));
    IntTextNonEmpty(p.id);
    QuantityAgainstStock(n, p);
    PriceOfCentsText(cents);
    ValidateFields(st);
    IntTextRoundTrip(n);
    SentPriceOfCentsText(cents);
    assert IsValid(st) <==> Validate(st) == map[];
  }

  /** A quantity of white space passes the form, which then submits no
      quantity at all (`parseInt` gives NaN, sent as `null`). */
  lemma BlankQuantitySubmitsNothing(st: State)
    requires st.form.sparePartId != ""
    requires st.form.stockOutQuantity == " "
    requires PriceMessage(st.form.stockOutUnitPrice).None?
    ensures Submit(st).Some? && Submit(st).value.stockOutQuantity.None?
  {
    assert IsBlank(" ");
    BlankQuantityPasses(" ");
    ValidateFields(st);
    assert Validate(st) == map[];
  }

  /** End to end: a form `validateForm` accepts, for a part whose listed
      stock is still current, is accepted by `POST /api/stock-out`, which
      takes exactly the submitted quantity from that part. */
  lemma AcceptedFormIsAcceptedByServer(s: Inventory.Store, p: PartOption, n: int, cents: int, now: Inventory.Timestamp)
    requires p.id in s.parts && s.parts[p.id].quantity == p.quantity
    requires Submit(State(Form(IntText(p.id), IntText(n), CentsText(cents)), Some(p))).Some?
    ensures var b := Submit(State(Form(IntText(p.id), IntText(n), CentsText(cents)), Some(p))).value;
            var r := Ledger.StockOutOp(s, Some(b.sparePartId), b.stockOutQuantity, b.stockOutUnitPrice, now);
            r.Ok? && r.value.parts[p.id].quantity == p.quantity - n
  {
    SubmitRoundTrip(p, n, cents);
    assert 0 < n <= p.quantity && cents > 0;
    ServerTakesStock(s, p.id, n, cents, now);
  }

  /** `POST /api/stock-out` accepts the id text of a known part, a positive
      quantity the part has and a non-zero price, and takes that quantity
      from the part. */
  lemma ServerTakesStock(s: Inventory.Store, id: int, n: int, cents: int, now: Inventory.Timestamp)
    requires id in s.parts
    requires 0 < n <= s.parts[id].quantity && cents != 0
    ensures var r := Ledger.StockOutOp(s, Some(IntText(id)), Some(n), Some(Ledger.ExactPrice(cents)), now);
            r.Ok? && r.value.parts[id].quantity == s.parts[id].quantity - n
  {
    Ledger.NamedIdOfIntText(id);
    IntTextNonEmpty(id);
  }

  /** A quantity of blanks passes `validateForm`, and the server then
      refuses the request as invalid: the check the form meant to make
      happens on the server only. */
  lemma BlankQuantityRejectedByServer(s: Inventory.Store, st: State, now: Inventory.Timestamp)
    requires st.form.sparePartId != ""
    requires st.form.stockOutQuantity == " "
    requires PriceMessage(st.form.stockOutUnitPrice).None?
    ensures Submit(st).Some?
    ensures Ledger.StockOutOp(s, Some(Submit(st).value.sparePartId), Submit(st).value.stockOutQuantity,
                              Submit(st).value.stockOutUnitPrice, now)
              == Ledger.Err(Ledger.Invalid)
  {
    BlankQuantitySubmitsNothing(st);
  }
}
