/** The new-part form (frontend AddSparePart.jsx): name, category, opening
    quantity and unit price, sent with `POST /api/spare-parts`. */
module AddSparePart {
  import opened Prelude
  import opened Text
  import opened Forms
  import Inventory
  import Ledger

  /** `formData`. */
  datatype Form = Form(name: string, category: string, quantity: string, unitPrice: string)

  datatype Field = Name | Category | Quantity | UnitPrice

  /** `handleChange`: the named field takes `value`, the others keep their
      text. */
  function HandleChange(f: Form, field: Field, value: string): (r: Form)
    ensures r.name == (if field == Name then value else f.name)
    ensures r.category == (if field == Category then value else f.category)
    ensures r.quantity == (if field == Quantity then value else f.quantity)
    ensures r.unitPrice == (if field == UnitPrice then value else f.unitPrice)
  {
    match field
    case Name => f.(name := value)
    case Category => f.(category := value)
    case Quantity => f.(quantity := value)
    case UnitPrice => f.(unitPrice := value)
  }

  /** A name or category made of white space only is missing. */
  function TextMessage(t: string): (m: Option<Message>)
    ensures m.None? <==> !IsBlank(t)
    ensures m.Some? ==> m.value == Required
  {
    TrimEmptyIffBlank(t);
    if Trim(t) == "" then Some(Required) else None
  }

  /** The opening quantity: empty is `Required`; `NaN` or a whole part
      below 0 is refused (with the message "must be a positive number",
      though 0 passes). */
  function OpeningQuantityMessage(q: string): Option<Message> {
    if q == "" then Some(Required)
    else if IsNaN(q) || IntBelow(q, 0) then Some(MustBePositive)
    else None
  }

  /** `validateForm`. */
  function Validate(f: Form): (errors: Errors<Field>)
    ensures Name in errors <==> IsBlank(f.name)
    ensures Category in errors <==> IsBlank(f.category)
    ensures Quantity in errors <==> OpeningQuantityMessage(f.quantity).Some?
    ensures UnitPrice in errors <==> PriceMessage(f.unitPrice).Some?
    ensures Name in errors ==> errors[Name] == Required
    ensures Category in errors ==> errors[Category] == Required
    ensures Quantity in errors ==> errors[Quantity] == OpeningQuantityMessage(f.quantity).value
    ensures UnitPrice in errors ==> errors[UnitPrice] == PriceMessage(f.unitPrice).value
  {
    var e0: Errors<Field> := map[];
    var e1 := Record(e0, Name, TextMessage(f.name));
    var e2 := Record(e1, Category, TextMessage(f.category));
    var e3 := Record(e2, Quantity, OpeningQuantityMessage(f.quantity));
    Record(e3, UnitPrice, PriceMessage(f.unitPrice))
  }

  predicate IsValid(f: Form) {
    |Validate(f)| == 0
  }

  /** The body of `POST /api/spare-parts`: name and category as typed
      (untrimmed), `parseInt` of the quantity, `parseFloat` of the price. */
  datatype Payload = Payload(name: string, category: string, quantity: Option<int>, unitPrice: Option<Ledger.Price>)

  /** `handleSubmit`: a valid form sends a non-blank name and category, a
      quantity that is NaN or at least 0, and a price that is NaN or a
      non-zero number. */
  function Submit(f: Form): (r: Option<Payload>)
    ensures r.Some? <==> IsValid(f)
    ensures r.Some? ==> r.value.name == f.name && r.value.category == f.category
    ensures r.Some? ==> !IsBlank(r.value.name) && !IsBlank(r.value.category)
    ensures r.Some? && r.value.quantity.Some? ==> r.value.quantity.value >= 0
    ensures r.Some? && r.value.unitPrice.Some? ==> r.value.unitPrice.value.nonZero && r.value.unitPrice.value.cents >= 0
  {
    if !IsValid(f) then None
    else
      assert Validate(f).Keys == {};
      AcceptedPrice(f.unitPrice);
      Some(Payload(f.name, f.category, ParseInt(f.quantity), SentPrice(f.unitPrice)))
  }

  /** On the text of an integer the opening-quantity check accepts exactly
      the non-negative values. */
  lemma OpeningQuantityOfIntText(n: int)
    ensures OpeningQuantityMessage(IntText(n)) == if n >= 0 then None else Some(MustBePositive)
  {
    IntTextRoundTrip(n);
    IntTextNonEmpty(n);
  }

  /** A form whose quantity and price are the texts of `n` and `cents` is
      sent exactly when name and category are not blank, `n >= 0` and
      `cents > 0`, and then sends those values. */
  lemma SubmitRoundTrip(name: string, category: string, n: int, cents: int)
    ensures Submit(Form(name, category, IntText(n), CentsText(cents))).Some? <==>
              !IsBlank(name) && !IsBlank(category) && n >= 0 && cents > 0
    ensures !IsBlank(name) && !IsBlank(category) && n >= 0 && cents > 0 ==>
              Submit(Form(name, category, IntText(n), CentsText(cents))) ==
              Some(Payload(name, category, Some(n), Some(Ledger.ExactPrice(cents))))
  {
    var f := Form(name, category, IntText(n), CentsText(cents));
    OpeningQuantityOfIntText(n);
    PriceOfCentsText(cents);
    IntTextRoundTrip(n);
    SentPriceOfCentsText(cents);
    assert IsValid(f) <==> Validate(f).Keys == {};
  }

  /** End to end: a form accepted with a positive opening quantity, whose
      texts fit their columns, creates the part as typed, as the next id;
      the texts are stored as their columns keep them. */
  lemma AcceptedFormCreatesPart(s: Inventory.Store, name: string, category: string, n: int, cents: int,
                                now: Inventory.Timestamp)
    requires Submit(Form(name, category, IntText(n), CentsText(cents))).Some?
    requires n > 0
    requires Inventory.FitsColumn(name, Inventory.MaxNameLength)
    requires Inventory.FitsColumn(category, Inventory.MaxCategoryLength)
    ensures var b := Submit(Form(name, category, IntText(n), CentsText(cents))).value;
            var r := Ledger.CreatePart(s, b.name, b.category, b.quantity, b.unitPrice, now);
            r.Ok? && r.value.parts[s.nextPartId] == StoredPart(name, category, n, cents, now)
  {
    SubmitRoundTrip(name, category, n, cents);
    assert name != "" && category != "" by {
      assert IsBlank("");
    }
    ServerCreatesPart(s, name, category, n, cents, now);
  }

  /** `POST /api/spare-parts` with non-empty texts that fit their
      columns, a positive quantity and a non-zero price creates the part
      as the next id. */
  lemma ServerCreatesPart(s: Inventory.Store, name: string, category: string, n: int, cents: int,
                          now: Inventory.Timestamp)
    requires name != "" && category != "" && n > 0 && cents != 0
    requires Inventory.FitsColumn(name, Inventory.MaxNameLength)
    requires Inventory.FitsColumn(category, Inventory.MaxCategoryLength)
    ensures var r := Ledger.CreatePart(s, name, category, Some(n), Some(Ledger.ExactPrice(cents)), now);
            r.Ok? && r.value.parts[s.nextPartId] == StoredPart(name, category, n, cents, now)
  {
  }

  /** The part row the insert writes for the typed texts and values. */
  function StoredPart(name: string, category: string, n: int, cents: int,
                      now: Inventory.Timestamp): Inventory.Part
  {
    Inventory.Part(Inventory.ColumnValue(name, Inventory.MaxNameLength),
                   Inventory.ColumnValue(category, Inventory.MaxCategoryLength), n, cents, now)
  }

  /** The form does not trim the name it sends: a name padded with spaces
      past its column passes `validate`, is sent as typed, and the part is
      created with the name cut to 100 characters, having lost only
      spaces. */
  lemma PaddedNameIsCut(s: Inventory.Store, name: string, category: string, n: int, cents: int,
                        now: Inventory.Timestamp)
    requires !IsBlank(name) && !IsBlank(category) && n > 0 && cents > 0
    requires |name| > Inventory.MaxNameLength && Inventory.FitsColumn(name, Inventory.MaxNameLength)
    requires Inventory.FitsColumn(category, Inventory.MaxCategoryLength)
    ensures Submit(Form(name, category, IntText(n), CentsText(cents))) ==
            Some(Payload(name, category, Some(n), Some(Ledger.ExactPrice(cents))))
    ensures var r := Ledger.CreatePart(s, name, category, Some(n), Some(Ledger.ExactPrice(cents)), now);
            && r.Ok?
            && r.value.parts[s.nextPartId].name == name[..Inventory.MaxNameLength]
            && forall c :: c in name[Inventory.MaxNameLength..] ==> c == ' '
  {
    SubmitRoundTrip(name, category, n, cents);
    assert name != "" && category != "" by {
      assert IsBlank("");
    }
    ServerCreatesPart(s, name, category, n, cents, now);
    Inventory.ColumnValueDropsSpaces(name, Inventory.MaxNameLength);
  }

  /** The form checks no length: a name with a character other than a
      space past its column passes `validate` and is sent, and the insert
      then fails with a 500. */
  lemma LongNameRefusedByServer(s: Inventory.Store, name: string, category: string, n: int, cents: int,
                                now: Inventory.Timestamp)
    requires !IsBlank(name) && !IsBlank(category) && n > 0 && cents > 0
    requires !Inventory.FitsColumn(name, Inventory.MaxNameLength)
    ensures Submit(Form(name, category, IntText(n), CentsText(cents))) ==
            Some(Payload(name, category, Some(n), Some(Ledger.ExactPrice(cents))))
    ensures Ledger.CreatePart(s, name, category, Some(n), Some(Ledger.ExactPrice(cents)), now) ==
            Ledger.Err(Ledger.ServerError)
  {
    SubmitRoundTrip(name, category, n, cents);
    assert name != "" && category != "" by {
      assert IsBlank("");
    }
    ServerRefusesLongName(s, name, category, n, cents, now);
  }

  /** `POST /api/spare-parts` whose fields all pass the server's check
      but whose name has a character other than a space past its column
      answers 500. */
  lemma ServerRefusesLongName(s: Inventory.Store, name: string, category: string, n: int, cents: int,
                              now: Inventory.Timestamp)
    requires name != "" && category != "" && n != 0 && cents != 0
    requires !Inventory.FitsColumn(name, Inventory.MaxNameLength)
    ensures Ledger.CreatePart(s, name, category, Some(n), Some(Ledger.ExactPrice(cents)), now) ==
            Ledger.Err(Ledger.ServerError)
  {
  }

  /** The form and the server disagree on an opening quantity of 0:
      the form accepts it and sends 0, which the server refuses as
      missing (0 is falsy). */
  lemma ZeroQuantityRefusedByServer(s: Inventory.Store, name: string, category: string, cents: int,
                                    now: Inventory.Timestamp)
    requires !IsBlank(name) && !IsBlank(category) && cents > 0
    ensures Submit(Form(name, category, "0", CentsText(cents))) ==
            Some(Payload(name, category, Some(0), Some(Ledger.ExactPrice(cents))))
    ensures Ledger.CreatePart(s, name, category, Some(0), Some(Ledger.ExactPrice(cents)), now) == Ledger.Err(Ledger.Invalid)
  {
    assert IntText(0) == "0";
    SubmitRoundTrip(name, category, 0, cents);
  }
}
