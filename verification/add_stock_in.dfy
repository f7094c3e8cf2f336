/** The stock-in entry form (frontend AddStockIn.jsx): a part and a
    quantity, with the part optionally taken from the `sparePartId` query
    parameter, sent with `POST /api/stock-in`. */
module AddStockIn {
  import opened Prelude
  import opened Text
  import opened Forms
  import Inventory
  import Ledger

  /** `formData`. */
  datatype Form = Form(sparePartId: string, stockInQuantity: string)

  const Initial: Form := Form("", "")

  datatype Field = SparePartId | StockInQuantity

  /** `handleChange`: the named field takes `value`, the other keeps its
      text. */
  function HandleChange(f: Form, field: Field, value: string): (r: Form)
    ensures field == SparePartId ==> r.sparePartId == value && r.stockInQuantity == f.stockInQuantity
    ensures field == StockInQuantity ==> r.stockInQuantity == value && r.sparePartId == f.sparePartId
  {
    match field
    case SparePartId => f.(sparePartId := value)
    case StockInQuantity => f.(stockInQuantity := value)
  }

  /** After the parts load, a non-empty `sparePartId` query parameter is
      copied into the form as it is, whether or not a listed part has that
      id; the quantity is kept. */
  function Prefill(f: Form, query: Option<string>): (r: Form)
    ensures r.stockInQuantity == f.stockInQuantity
    ensures query.Some? && query.value != "" ==> r.sparePartId == query.value
    ensures query.None? || query.value == "" ==> r == f
  {
    if query.Some? && query.value != "" then f.(sparePartId := query.value) else f
  }

  /** `validateForm`. */
  function Validate(f: Form): (errors: Errors<Field>)
    ensures SparePartId in errors <==> f.sparePartId == ""
    ensures SparePartId in errors ==> errors[SparePartId] == SelectPart
    ensures StockInQuantity in errors <==> QuantityMessage(f.stockInQuantity).Some?
    ensures StockInQuantity in errors ==> errors[StockInQuantity] == QuantityMessage(f.stockInQuantity).value
  {
    var e0: Errors<Field> := map[];
    var e1 := Record(e0, SparePartId, if f.sparePartId == "" then Some(SelectPart) else None);
    Record(e1, StockInQuantity, QuantityMessage(f.stockInQuantity))
  }

  predicate IsValid(f: Form) {
    |Validate(f)| == 0
  }

  /** The body of `POST /api/stock-in`: the id text as chosen and
      `parseInt` of the quantity. */
  datatype Payload = Payload(sparePartId: string, stockInQuantity: Option<int>)

  /** `handleSubmit`: a valid form sends a non-empty id and a quantity
      that is positive or NaN. */
  function Submit(f: Form): (r: Option<Payload>)
    ensures r.Some? <==> f.sparePartId != "" && QuantityMessage(f.stockInQuantity).None?
    ensures r.Some? ==> r.value.sparePartId == f.sparePartId != ""
    ensures r.Some? && r.value.stockInQuantity.Some? ==> r.value.stockInQuantity.value > 0
  {
    if !IsValid(f) then None
    else
      assert Validate(f).Keys == {};
      AcceptedQuantity(f.stockInQuantity);
      Some(Payload(f.sparePartId, ParseInt(f.stockInQuantity)))
  }

  /** A form naming part `id` with the text of an integer `n` is sent
      exactly when `n` is positive, and then sends `id`'s text and `n`. */
  lemma SubmitRoundTrip(id: int, n: int)
    ensures Submit(Form(IntText(id), IntText(n))).Some? <==> n > 0
    ensures n > 0 ==> Submit(Form(IntText(id), IntText(n))) == Some(Payload(IntText(id), Some(n)))
  {
    IntTextNonEmpty(id);
    QuantityOfIntText(n);
    IntTextRoundTrip(n);
  }

  /** Opening the form from a link that names part `id` selects that part:
      the part check passes and only the quantity is left to fill in. */
  lemma LinkSelectsPart(id: int)
    ensures Prefill(Initial, Some(IntText(id))) == Form(IntText(id), "")
    ensures SparePartId !in Validate(Prefill(Initial, Some(IntText(id))))
    ensures Validate(Prefill(Initial, Some(IntText(id)))) == map[StockInQuantity := Required]
  {
    IntTextNonEmpty(id);
  }

  /** End to end: a valid form for a listed part adds exactly the
      submitted quantity to that part's stock. */
  lemma AcceptedFormAddsStock(s: Inventory.Store, id: int, n: int, now: Inventory.Timestamp)
    requires id in s.parts
    requires Submit(Form(IntText(id), IntText(n))).Some?
    ensures var b := Submit(Form(IntText(id), IntText(n))).value;
            var r := Ledger.StockInOp(s, Some(b.sparePartId), b.stockInQuantity, now);
            r.Ok? && r.value.parts[id].quantity == s.parts[id].quantity + n
  {
    SubmitRoundTrip(id, n);
    ServerAddsStock(s, id, n, now);
  }

  /** `POST /api/stock-in` accepts the id text of a known part and a
      positive quantity, and adds that quantity to the part. */
  lemma ServerAddsStock(s: Inventory.Store, id: int, n: int, now: Inventory.Timestamp)
    requires id in s.parts && n > 0
    ensures var r := Ledger.StockInOp(s, Some(IntText(id)), Some(n), now);
            r.Ok? && r.value.parts[id].quantity == s.parts[id].quantity + n
  {
    Ledger.NamedIdOfIntText(id);
    IntTextNonEmpty(id);
  }

  /** Since the link's id text is never checked against the listed parts,
      a stale or hand-written one passes the form, and only the server
      catches it, answering 500 rather than 404. */
  lemma UnknownPartPassesForm(s: Inventory.Store, t: string, n: int, now: Inventory.Timestamp)
    requires t != "" && !Ledger.Names(s, t) && n > 0
    ensures IsValid(Prefill(Form("", IntText(n)), Some(t)))
    ensures var b := Submit(Prefill(Form("", IntText(n)), Some(t))).value;
            Ledger.StockInOp(s, Some(b.sparePartId), b.stockInQuantity, now) == Ledger.Err(Ledger.ServerError)
  {
    var f := Prefill(Form("", IntText(n)), Some(t));
    assert f == Form(t, IntText(n));
    QuantityOfIntText(n);
    IntTextRoundTrip(n);
    assert Submit(f) == Some(Payload(t, Some(n)));
  }
}
