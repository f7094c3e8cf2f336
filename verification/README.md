# Stock inventory ledger — a Dafny model

This project models the core of a small stock-inventory web application.

**Server.** An Express server (`backend/server.js`) keeps three MySQL tables:
- spare parts, each with an on-hand quantity;
- stock-in movements;
- stock-out movements.

It exposes these handlers, each run as one request:
- creating a part;
- recording a stock-in or a stock-out;
- editing or deleting a stock-out record;
- two read-only reports: the daily stock-out list and the stock status of every part.

**Browser.** The React front end checks each form before it calls the server:
- adding a stock-out;
- editing a stock-out;
- adding a stock-in;
- adding a spare part;
- registering an account.

Two list screens work on rows already fetched:
- the stock status report, with its summary cards, category list, search and "Stock In" action;
- the spare parts list, with its category list, search and low-stock highlight.

**The model.**
- The server's tables are one immutable `Inventory.Store`, and every handler is a pure function from a store to `Ok(store)` or `Err(error)`. HTTP 400 becomes `Invalid` for a failed field check or `NotEnoughStock` for the stock check (server.js:360-364, 466-470); 404 becomes `NotFound` and 500 `ServerError`.
- A request's quantity fields are `Option<int>`: `None` is a missing field or a JSON `null`. JavaScript truthiness is written out, so `0` and `None` are falsy.
- The part id of a stock-in or stock-out body is text (`Option<string>`), as the form's `<select>` sends it: any non-empty string, `"0"` included, is truthy. `Ledger.NamedId` is the integer MySQL compares it with.
- Money is integer cents, matching the `DECIMAL(10, 2)` columns. A price in a body is a `Ledger.Price`: whether the JSON number is non-zero, which is what `!unitPrice` tests, and the cents the column stores after rounding.
- The forms are pure functions over their text fields. The parts of JavaScript they rely on are modelled explicitly:
  - `Number(...)`, `isNaN`, `parseInt` and `parseFloat` on decimal numerals;
  - `trim`, `toLowerCase`, `includes`;
  - regular-expression tests.

**What is proved.**
- The ledger invariant: every part's on-hand quantity equals its stock-in total minus its stock-out total, and is never negative. Every handler keeps it, except creating a part with a negative opening quantity. Any run of requests with integer quantities keeps it as long as no such creation is among them; fractional JSON quantities are outside the model (see Left out).
- Deleting a stock-out undoes it.
- Editing a record back to its old values restores the store.
- Saving an unchanged record changes nothing.
- Each form submits exactly what it validated: round trips from typed text to the request body.
- End-to-end lemmas connect an accepted form to the server handler that accepts it.
- The stock-status query, as written, miscounts (see Findings). A corrected report balances on every valid store.

Modules:
- `Prelude`: `Option`.
- `Text`: ASCII strings and the JavaScript number parsing the forms use.
- `Sequences`: generic sum, filter, count, de-duplication and sort.
- `Inventory`: tables, movement totals and the invariant.
- `Ledger`: the mutating handlers.
- `Reports`: the two report queries.
- `Forms`: the checks shared by the forms.
- `AddStockOut`, `EditStockOut`, `AddStockIn`, `AddSparePart`, `Register`: one module per form.
- `Listings`: the two list screens.

Behaviour of the code that the model keeps, although other parts of the same code expect otherwise:
- **Negative opening quantity.** `POST /api/spare-parts` stores a negative opening quantity (server.js:223-231), while stock-out and edit refuse to take a part below zero (server.js:360-364, 466-470). `Ledger.CreatePartAcceptsNegativeQuantity` proves it.
- **Opening quantity of zero.** `!quantity` refuses it (server.js:223), although the form accepts 0 (AddSparePart.jsx:32-36) and the server's own stock-in step tests `quantity > 0` (server.js:234).
- **Unknown part on stock-in.** The stock-in handler looks nothing up (server.js:290-301): the insert fails the foreign key and the answer is 500, where stock-out answers 404 (server.js:352-356).
- **Sub-cent prices.** A price such as `0.004` passes `!unitPrice` and the form's `> 0` check, and the `DECIMAL(10, 2)` column stores it as `0.00` (`Forms.SubCentPrice`). Such a record cannot then be saved unchanged, since `0.00` is falsy. The price inputs carry `min="0.01" step="0.01"` (AddStockOut.jsx:197-202, EditStockOut.jsx:165-170, AddSparePart.jsx:152-156), so a browser's constraint validation stops such a price before `handleSubmit`; it reaches the server from a client that bypasses those inputs.
- **Stock-status totals.** The report's totals are multiplied by the join fan-out (server.js:582-587), so they disagree with the on-hand quantity that server.js:298-301 and 373-376 maintain; see Findings.

## Model

| member | source | states |
|---|---|---|
| Ledger.Adjust | backend/server.js:298-301 | the quantity update changes only the named part's quantity, by exactly the delta, and changes nothing when the part is missing |
| Ledger.NamedId | backend/server.js:350 | the id text names an integer only when `parseInt` reads that integer from it |
| Ledger.NamedIdOfIntText | backend/server.js:350 | the text of an integer names that integer |
| Ledger.CreatePart | backend/server.js:218-249 | refused as invalid exactly when name or category is empty, the quantity is missing or zero, or the price is missing or sent as zero; a server error exactly when a request passing that check has a character other than a space past the 100th of the name or the 50th of the category (the `VARCHAR` widths at server.js:70-71); nothing else fails; on success the part id counter advances by one, the stock-in counter by one exactly when a stock-in row is written, and the part is stored under the next id with its name and category cut to their widths (losing only trailing spaces), the given quantity and the price's stored cents, stock-outs are unchanged, and the stock-in row (next id, part, quantity, date) is appended when the quantity is positive, no row when it is negative |
| Ledger.CreatePartPreservesValid | backend/server.js:228-239 | creating a part with a positive opening quantity keeps the ledger balanced, well formed and non-negative |
| Ledger.CreatePartAcceptsNegativeQuantity | backend/server.js:223-231 | a negative opening quantity with texts that fit their columns is accepted and leaves a part with negative stock that its movements do not explain |
| Ledger.CreatePartRejectsZeroQuantity | backend/server.js:223 | an opening quantity of 0 is refused as invalid |
| Ledger.StockInOp | backend/server.js:277-316 | invalid exactly when the part id text is missing or empty or the quantity is missing, zero or negative; a valid request whose id names no part fails with a server error; on success the named part grows by the quantity and keeps its other fields, every other part is unchanged, the row (next id, part, quantity, date) is appended, stock-outs are unchanged, and only the stock-in id counter advances, by one |
| Ledger.StockInPreservesValid | backend/server.js:287-311 | an accepted stock-in keeps the ledger invariant |
| Ledger.StockInAccepted | backend/server.js:282-301 | an accepted stock-in names a listed part, has a positive quantity, and produces exactly the store with the row appended and the part raised |
| Ledger.StockInRaisesTotalPrice | backend/server.js:74 | an accepted stock-in keeps the part's unit price, so the part's generated total price rises by the quantity times that price |
| Ledger.StockOutOp | backend/server.js:335-391 | invalid exactly when the id text is missing or empty, the quantity is missing, zero or negative, or the price is missing or sent as zero; not found exactly when a valid request's id names no part; not enough stock exactly when that part holds less than asked; never a server error; on success the part loses exactly the quantity, stays non-negative and keeps its other fields, the row (next id, part, quantity, stored cents, date) is appended, only the stock-out id counter advances, by one, and nothing else changes |
| Ledger.StockOutLowersTotalPrice | backend/server.js:74-97 | an accepted stock-out keeps the part's unit price, so the part's generated total price falls by the quantity times that price, and the new record's generated total price is the quantity times the price sent |
| Ledger.StockOutPreservesValid | backend/server.js:345-386 | an accepted stock-out keeps the ledger invariant |
| Ledger.StockOutAccepted | backend/server.js:340-376 | an accepted stock-out names a listed part holding at least its positive quantity, and produces exactly the store with the row appended and the part lowered |
| Ledger.DeparturePreservesValid | backend/server.js:367-376 | recording a row under the next id and taking its positive quantity from a part holding that many keeps the ledger invariant |
| Ledger.FindStockOut | backend/server.js:445-454 | finds the first record with the id, or none exactly when no record has it |
| Ledger.EditStockOut | backend/server.js:429-498 | invalid exactly for a missing, zero or negative quantity or a missing or zero price; not found exactly when the quantity and price pass that check and no record has the id; for an increase, a server error exactly when the record's part is gone and not enough stock exactly when the part holds less than the increase; on success the found record takes the new quantity and stored cents and keeps its id, part and date, every other record, the stock-ins and the other parts are unchanged, and the record's part moves by the old minus the new quantity without going negative and keeps its other fields; no id counter moves |
| Ledger.EditStockOutConserves | backend/server.js:457-483 | an edit keeps each part's on-hand quantity plus its stock-out total unchanged: the difference moves between the record and the part |
| Ledger.EditStockOutPreservesValid | backend/server.js:440-493 | an accepted edit keeps the ledger invariant |
| Ledger.EditBackRestores | backend/server.js:457-483 | on a consistent store, editing a record and then editing it back to its old quantity and price gives back the original store; when the stored price was `0.00` the reverse edit is refused as invalid instead |
| Ledger.EditAccepted | backend/server.js:457-483 | an edit whose increase the part can cover replaces the record and moves the part by the old minus the new quantity |
| Ledger.DeleteStockOut | backend/server.js:500-545 | not found exactly when no record has the id; otherwise exactly the record with the id is removed and the others keep their order, its part, if present, gets back the record's quantity and keeps its other fields, other parts and stock-ins are unchanged, and no id counter moves |
| Ledger.DeleteStockOutConserves | backend/server.js:524-530 | a delete keeps each part's on-hand quantity plus its stock-out total unchanged: the record's quantity goes back to its part |
| Ledger.DeleteStockOutPreservesValid | backend/server.js:505-540 | an accepted delete keeps the ledger invariant |
| Ledger.DeleteUndoesStockOut | backend/server.js:524-530 | deleting the record a stock-out just created gives back the store it started from, apart from the id counter |
| Ledger.ReplayPreservesValid | backend/server.js:218-545 | any run of requests over the five handlers, with integer quantities, that opens no part with negative stock keeps a consistent store consistent |
| Ledger.HandlePreservesValid | backend/server.js:218-545 | every handler, given a request with integer quantities that it accepts that opens no part with negative stock, keeps a consistent store consistent |
| Inventory.ColumnValue | backend/server.js:70-71 | a `VARCHAR(w)` column stores the first `w` characters of a text, and a text of at most `w` characters unchanged |
| Inventory.ColumnValueDropsSpaces | backend/server.js:70-71 | a text with only spaces past the width loses only those spaces when stored |
| Inventory.EmptyStoreValid | backend/server.js:67-101 | the freshly created, empty tables satisfy the ledger invariant |
| Reports.CoalescedSum | backend/server.js:582-583 | COALESCE(SUM(column), 0) is the sum of the non-NULL values |
| Reports.InColumnSum | backend/server.js:585-586 | after the double join, each stock-in value is summed once per stock-out row it was joined with |
| Reports.OutColumnSum | backend/server.js:585-586 | after the double join, each stock-out value is summed once per stock-in row it was joined with |
| Reports.JoinedSums | backend/server.js:581-587 | with m stock-in and n stock-out matches the query sums Σin·max(1,n) and Σout·max(1,m) |
| Reports.JoinedTotals | backend/server.js:576-589 | the reported row of a part carries its id and on-hand quantity, and its totals are the true totals multiplied by the other table's row count (at least 1) |
| Reports.FanOutOverstatesTotals | backend/server.js:582-587 | on a consistent store with two stock-ins of 5 and one stock-out of 3, the query reports 10 in and 6 out for a part holding 7, where the movements give 10 in and 3 out |
| Reports.JoinedAgreesWhenNoFanOut | backend/server.js:582-587 | the query's row equals the corrected row exactly when neither total is inflated: the inflow is 0 or there is at most one stock-out row, and the outflow is 0 or there is at most one stock-in row |
| Reports.StatusRowBalanced | backend/server.js:581-583 | on a balanced store the corrected row of a part shows on-hand = in − out |
| Reports.OrderedByName | backend/server.js:588 | the report order is a permutation of the rows sorted by name, compared case-insensitively |
| Reports.PartIds | backend/server.js:587 | the groups are exactly the part ids, each once |
| Reports.StockStatusAsWrittenLists | backend/server.js:576-589 | the query lists every part exactly once with its joined row, in name order |
| Reports.StockStatusLists | backend/server.js:576-589 | the corrected report lists every part exactly once with its own row, in name order |
| Reports.StockStatusBalanced | backend/server.js:576-589 | on a consistent store every row of the corrected report balances and is non-negative |
| Reports.DayRowsMember | backend/server.js:561-563 | a row is selected exactly when it is the joined row of a stock-out of that day whose part exists |
| Reports.DailyStockOut | backend/server.js:552-565 | the daily report is a permutation of that day's joined rows, newest first |
| Reports.DailyStockOutSelects | backend/server.js:548-572 | the daily report holds exactly the stock-outs dated that day whose part exists, one row for each such stock-out (its length is their count), every row dated that day, each row's total price equal to its quantity times its unit price (the generated column at server.js:97), newest first |
| Reports.DayRowsLength | backend/server.js:548-572 | the join yields one row per stock-out of the day whose part exists: the number of rows is the number of such stock-outs |
| Text.IntTextRoundTrip | frontend/src/components/stock-out/EditStockOut.jsx:24-27 | parseInt reads a rendered integer back as itself |
| Text.ParseBlank | frontend/src/components/stock-out/AddStockOut.jsx:80 | Number reads white space alone as 0, not NaN |
| Text.CentsTextSign | frontend/src/components/stock-out/EditStockOut.jsx:57-61 | a rendered amount reads as positive exactly when its cents are positive |
| Text.ContainsIff | frontend/src/components/reports/StockStatusReport.jsx:52 | includes holds exactly when the term occurs at some position |
| Forms.Record | frontend/src/components/stock-out/AddStockOut.jsx:72-94 | recording a check's outcome sets that field's entry to the message when there is one, keeps every other entry and its message, and leaves the map unchanged when the check passed |
| Forms.QuantityOfIntText | frontend/src/components/stock-in/AddStockIn.jsx:60-64 | on the text of an integer the quantity check passes exactly the positive values |
| Forms.PriceOfCentsText | frontend/src/components/stock-out/AddStockOut.jsx:86-90 | on a rendered amount the price check passes exactly the positive amounts |
| Forms.AcceptedQuantity | frontend/src/components/stock-out/AddStockOut.jsx:80-81 | a quantity that passes the check is sent as a positive integer or as NaN |
| Forms.BlankQuantityPasses | frontend/src/components/stock-out/AddStockOut.jsx:78-81 | a quantity of white space passes the check and is sent as NaN |
| Forms.BlankPricePasses | frontend/src/components/stock-out/AddStockOut.jsx:86-90 | a price of white space passes the check and is sent as NaN |
| Forms.SentPriceOfCentsText | frontend/src/components/stock-out/AddStockOut.jsx:108 | parseFloat of a rendered amount is sent as non-zero exactly when the amount is, and stored as exactly its cents |
| Forms.SentPriceOfNumeral | frontend/src/components/stock-out/AddStockOut.jsx:108 | a numeral whose digits spell an amount is stored as exactly that amount, and sent as non-zero exactly when a digit is non-zero |
| Forms.AcceptedPrice | frontend/src/components/stock-out/AddStockOut.jsx:86-90 | a price the check accepts is sent as NaN or as a non-zero number with non-negative cents, so the server's `!unitPrice` test passes it |
| Forms.SubCentPrice | frontend/src/components/stock-out/AddStockOut.jsx:86-90 | a positive price below half a cent passes the check, is sent as a non-zero number and is stored as 0 cents |
| AddStockOut.FindPart | frontend/src/components/stock-out/AddStockOut.jsx:57 | the part found has an id whose text is the chosen value; none is found only when no part's id has that text |
| AddStockOut.HandleChange | frontend/src/components/stock-out/AddStockOut.jsx:53-70 | a plain change sets only the named field; choosing a part fails exactly when no listed part has that id, and otherwise selects it and copies its price |
| AddStockOut.Prefill | frontend/src/components/stock-out/AddStockOut.jsx:28-42 | a query naming a listed part behaves as choosing it; any other query leaves the form unchanged |
| AddStockOut.ValidateFields | frontend/src/components/stock-out/AddStockOut.jsx:72-94 | each error entry is set exactly by its own check, with the message that check gives |
| AddStockOut.QuantityAgainstStock | frontend/src/components/stock-out/AddStockOut.jsx:78-84 | an integer quantity is accepted exactly when 0 < n <= the part's stock, and a larger one is reported with the available amount |
| AddStockOut.ChoosingPartFillsPrice | frontend/src/components/stock-out/AddStockOut.jsx:56-63 | choosing a listed part selects it, keeps the quantity and fills in its price, which passes exactly when positive |
| AddStockOut.FindFirstMatch | frontend/src/components/stock-out/AddStockOut.jsx:57 | with distinct ids the search finds the part whose id was chosen |
| AddStockOut.IntTextInjective | frontend/src/components/stock-out/AddStockOut.jsx:57 | two ids render to the same text exactly when they are equal |
| AddStockOut.Submit | frontend/src/components/stock-out/AddStockOut.jsx:96-111 | something is sent exactly for a valid form, with its part id, and a sent quantity is positive and at most the chosen part's stock |
| AddStockOut.SubmitRoundTrip | frontend/src/components/stock-out/AddStockOut.jsx:96-111 | a form typed from values is sent exactly when 0 < n <= stock and the price is positive, and then sends exactly those values |
| AddStockOut.BlankQuantitySubmitsNothing | frontend/src/components/stock-out/AddStockOut.jsx:78-84 | a quantity of one space passes the form, which then sends no quantity |
| AddStockOut.AcceptedFormIsAcceptedByServer | frontend/src/components/stock-out/AddStockOut.jsx:105-110 | the body a form sends when it was checked against the part's current stock is accepted by the server, which takes exactly that quantity from the part |
| AddStockOut.ServerTakesStock | backend/server.js:340-376 | the text of a part's id, a positive quantity the part holds and a non-zero price are accepted and take that quantity from the part |
| AddStockOut.BlankQuantityRejectedByServer | frontend/src/components/stock-out/AddStockOut.jsx:105-110 | the blank quantity the form lets through is refused by the server as invalid |
| EditStockOut.Load | frontend/src/components/stock-out/EditStockOut.jsx:24-27 | the loaded texts read back as the record's quantity and price |
| EditStockOut.HandleChange | frontend/src/components/stock-out/EditStockOut.jsx:39-45 | a change sets only the named field |
| EditStockOut.Validate | frontend/src/components/stock-out/EditStockOut.jsx:47-65 | each field has an error exactly when its own check fails, with the message that check gives |
| EditStockOut.Submit | frontend/src/components/stock-out/EditStockOut.jsx:67-81 | something is sent exactly when both checks pass, and a sent quantity is positive |
| EditStockOut.SubmitRoundTrip | frontend/src/components/stock-out/EditStockOut.jsx:67-81 | a form typed from values is sent exactly when both are positive, and then sends those values |
| EditStockOut.LoadedRecordResubmits | frontend/src/components/stock-out/EditStockOut.jsx:24-27 | a loaded record is accepted as it stands exactly when its quantity and price are positive, and resubmits its own values |
| EditStockOut.UnchangedSaveKeepsStore | frontend/src/components/stock-out/EditStockOut.jsx:67-81 | saving a record without changes is accepted and leaves the store exactly as it was |
| EditStockOut.SameValuesKeepStore | backend/server.js:457-483 | an edit to a record's own quantity and price changes nothing |
| EditStockOut.FoundAt | backend/server.js:445-454 | with distinct ids a record is found at its own position |
| AddStockIn.HandleChange | frontend/src/components/stock-in/AddStockIn.jsx:46-52 | a change sets only the named field |
| AddStockIn.Prefill | frontend/src/components/stock-in/AddStockIn.jsx:30-34 | a non-empty query id is copied as it is and the quantity is kept; otherwise the form is unchanged |
| AddStockIn.Validate | frontend/src/components/stock-in/AddStockIn.jsx:54-68 | the part has an error exactly when none is chosen, the quantity exactly when its check fails, each with its check's message |
| AddStockIn.Submit | frontend/src/components/stock-in/AddStockIn.jsx:70-84 | something is sent exactly when a part is chosen and the quantity passes, and a sent quantity is positive |
| AddStockIn.SubmitRoundTrip | frontend/src/components/stock-in/AddStockIn.jsx:70-84 | a form typed from a part id and an integer is sent exactly when the integer is positive, and then sends both |
| AddStockIn.LinkSelectsPart | frontend/src/components/stock-in/AddStockIn.jsx:26-35 | opening the form with a part id selects it and leaves only the quantity missing |
| AddStockIn.AcceptedFormAddsStock | frontend/src/components/stock-in/AddStockIn.jsx:79-83 | an accepted form for a listed part adds exactly the typed quantity to it on the server |
| AddStockIn.ServerAddsStock | backend/server.js:282-301 | the text of a listed part's id with a positive quantity adds that quantity to the part |
| AddStockIn.UnknownPartPassesForm | frontend/src/components/stock-in/AddStockIn.jsx:30-34 | an id text that names no part passes the form, and the body it sends gets a server error |
| AddSparePart.HandleChange | frontend/src/components/spare-parts/AddSparePart.jsx:17-23 | a change sets only the named field |
| AddSparePart.TextMessage | frontend/src/components/spare-parts/AddSparePart.jsx:29-30 | a name or category fails exactly when it is blank, and as required |
| AddSparePart.Validate | frontend/src/components/spare-parts/AddSparePart.jsx:25-46 | each of the four fields has an error exactly when its own check fails, with the message that check gives |
| AddSparePart.Submit | frontend/src/components/spare-parts/AddSparePart.jsx:48-63 | something is sent exactly for a valid form, with the name and category as typed and not blank, and a quantity that is non-negative or NaN |
| AddSparePart.OpeningQuantityOfIntText | frontend/src/components/spare-parts/AddSparePart.jsx:32-36 | on the text of an integer the opening-quantity check passes exactly the non-negative values |
| AddSparePart.SubmitRoundTrip | frontend/src/components/spare-parts/AddSparePart.jsx:48-63 | a form typed from values is sent exactly when name and category are not blank, n >= 0 and the price is positive, and then sends those values |
| AddSparePart.AcceptedFormCreatesPart | frontend/src/components/spare-parts/AddSparePart.jsx:57-61 | an accepted form with a positive quantity, whose texts have nothing but spaces past their column widths, creates the part under the next id with the typed values, the texts cut to their widths |
| AddSparePart.ServerCreatesPart | backend/server.js:223-231 | non-empty texts with nothing but spaces past their column widths, a positive quantity and a non-zero price create the part under the next id, the texts cut to their widths |
| AddSparePart.PaddedNameIsCut | frontend/src/components/spare-parts/AddSparePart.jsx:24-61 | a name padded with spaces past 100 characters passes the form, which neither trims nor measures it, is sent as typed, and is stored as its first 100 characters, having lost only spaces |
| AddSparePart.LongNameRefusedByServer | frontend/src/components/spare-parts/AddSparePart.jsx:24-61 | a name with a character other than a space past its column passes the form, which checks no length, is sent as typed, and the server answers with a server error |
| AddSparePart.ServerRefusesLongName | backend/server.js:218-249 | a request passing the field check whose name has a character other than a space past the 100-character column is answered with a server error |
| AddSparePart.ZeroQuantityRefusedByServer | frontend/src/components/spare-parts/AddSparePart.jsx:32-36 | an opening quantity of 0 passes the form and is sent, and the server refuses it as invalid |
| Register.TestUpperFinds | frontend/src/components/auth/Register.jsx:35 | the capital-letter test passes exactly when some character is an ASCII capital |
| Register.TestDigitFinds | frontend/src/components/auth/Register.jsx:36 | the digit test passes exactly when some character is an ASCII digit |
| Register.Validate | frontend/src/components/auth/Register.jsx:24-42 | each of the four fields has an error exactly when its own check fails, with that check's message; the confirmation fails, as a mismatch, exactly when it differs from the password |
| Register.PasswordRules | frontend/src/components/auth/Register.jsx:33-36 | a password passes exactly when it has 6 characters, a capital and a digit, and a failing one is reported by the first rule it breaks |
| Register.ValidIff | frontend/src/components/auth/Register.jsx:24-42 | the form is valid exactly when the username is not blank and has 3 characters, the full name is not blank, the password is strong and the confirmation equals it |
| Register.PaddedUsernamePasses | frontend/src/components/auth/Register.jsx:28-29 | the length rule counts white space: " a " passes and "a" does not |
| Register.Submit | frontend/src/components/auth/Register.jsx:44-55 | registration is requested exactly for a valid form, with the fields as typed and a confirmation equal to the password |
| Listings.Summarize | frontend/src/components/reports/StockStatusReport.jsx:30-32 | the cards show the number of rows, the sum of their quantities and the number of low-stock rows, which is at most the number of rows |
| Listings.StatusReportCategories | frontend/src/components/reports/StockStatusReport.jsx:26 | every row's category appears once, nothing else appears, in order of first appearance |
| Listings.FilterStatus | frontend/src/components/reports/StockStatusReport.jsx:51-56 | the shown rows are the rows whose name contains the term, ignoring case, and whose category passes, in their original order |
| Listings.FilterStatusKeepsAll | frontend/src/components/reports/StockStatusReport.jsx:51-56 | with no term and no category every row is shown |
| Listings.FilterStatusIgnoresCase | frontend/src/components/reports/StockStatusReport.jsx:52 | a term shows the same rows as its lower-case form |
| Listings.SearchIgnoresCase | frontend/src/components/reports/StockStatusReport.jsx:52 | a text matches a term exactly when it matches the term's lower-case form |
| Listings.EmptyTermMatches | frontend/src/components/reports/StockStatusReport.jsx:52 | an empty term matches every text |
| Listings.StockInLink | frontend/src/components/reports/StockStatusReport.jsx:197-199 | the Stock In action is offered exactly for rows below 10 units |
| Listings.StockInLinkOpensForm | frontend/src/components/reports/StockStatusReport.jsx:197-199 | following the action opens the stock-in form with that row's part chosen and only the quantity missing |
| Listings.LowCountIsLinkCount | frontend/src/components/reports/StockStatusReport.jsx:32 | the low-stock count equals the number of rows offering the action |
| Listings.PartsListCategories | frontend/src/components/spare-parts/SparePartsList.jsx:21 | every part's category appears once, nothing else appears, in order of first appearance |
| Listings.FilterParts | frontend/src/components/spare-parts/SparePartsList.jsx:35-41 | the shown parts are those whose name or category contains the term and whose category passes, in their original order |
| Listings.FilterPartsKeepsAll | frontend/src/components/spare-parts/SparePartsList.jsx:35-41 | with no term and no category every part is shown |
| Listings.FilterPartsByCategory | frontend/src/components/spare-parts/SparePartsList.jsx:38 | a category alone narrows the list to exactly that category's parts |
| Listings.HighlightMatchesStockInAction | frontend/src/components/spare-parts/SparePartsList.jsx:138 | a part is highlighted in the list exactly when its report row offers the Stock In action for it |
| Sequences.Filter | frontend/src/components/reports/StockStatusReport.jsx:51 | filter keeps exactly the elements that pass, in their order |
| Sequences.CountIsFilterLength | frontend/src/components/reports/StockStatusReport.jsx:32 | counting the elements that pass equals the length of the filtered list |
| Sequences.DistinctFirstOccurrenceOrder | frontend/src/components/reports/StockStatusReport.jsx:26 | de-duplication keeps values in order of their first occurrence |
| Sequences.DistinctValues | frontend/src/components/reports/StockStatusReport.jsx:26 | the loop computes the de-duplicated list |

## Left out

- Authentication: `POST /api/auth/register` and login, password hashing and sessions are not modelled. `Register.Submit` stops at the call.
- The database bootstrap and connection pool, and the HTTP routing and JSON encoding. Handlers take their parsed body fields as parameters.
- Concurrency: handlers are modelled one at a time. The server reads a part's stock and then updates it without a row lock, so two interleaved stock-outs could both pass the check; that race is not modelled.
- Ledger.CreatePart: the `VARCHAR` widths follow MySQL's strict mode. Trailing spaces past the width are cut in every mode, and any other character past it fails the insert. A server in a non-strict mode would cut those characters too, with a warning; that is not modelled.
- Ledger.CreatePart: modelled as atomic, although the server runs the part insert and the stock-in insert as two separate queries without a transaction.
- Error detail: a failed transaction's rollback is modelled by returning the store unchanged. Error message texts are not modelled.
- Clocks: the request's default date is a parameter (`now`). Timestamps are integers, and the calendar day is `DayOf`; time zones are not modelled.
- HTML constraint validation and number-input sanitisation: the inputs' `type="number"`, `min`, `max`, `step` and `required` attributes (AddStockOut.jsx:178-183 and 197-202, EditStockOut.jsx:147-151 and 165-170, AddStockIn.jsx:151-155, AddSparePart.jsx:134-137 and 152-156, Register.jsx:84, 103, 122, 141), and the browser's turning of a non-numeric entry such as `" "` into `""`, are not modelled. Each form is modelled from its `validateForm` and `handleSubmit` on, which is also what a client that bypasses the inputs reaches.
- Floating point: money is whole cents. A price with more than two fraction digits is rounded the way the `DECIMAL(10, 2)` column stores it. Prices beyond the column's range, and quantities beyond `INT`, are not modelled.
- Numerals with exponents, hexadecimal, `Infinity` and other JavaScript number syntax are treated as NaN; only decimal numerals are modelled.
- Collation: name ordering compares ASCII lower-case text. MySQL's full collation rules and the order of equal names are not modelled.
- `GET /api/spare-parts`, `GET /api/stock-in`, `GET /api/stock-out` and `GET /api/stock-out/:id`: the list screens take their rows as parameters, and the edit form takes the fetched record.
- `URLSearchParams` is modelled only for the single-parameter links the report builds.
- The daily stock-out report screen, dashboard, navigation, print views and other read-only screens.
- AddStockOut.HandleChange: the `TypeError` raised when the chosen id matches no listed part is modelled as `None`; what React then does with the error is not modelled.
- Ledger.CreatePartPreservesValid: requires a positive opening quantity, because a negative one breaks the invariant (shown by `Ledger.CreatePartAcceptsNegativeQuantity`) and zero is refused.
- Ledger.ReplayPreservesValid: excludes requests that open a part with negative stock, for the same reason.
- Ledger.StockOutOp and Ledger.EditStockOut take body quantities as integers. A JSON quantity with a fraction, such as 2.5, passes `!q || q <= 0` (server.js:340, 434). The `INT` column of the new or edited record then rounds the number itself, 2.5 to 3. The part's `quantity - ?` instead rounds the exact difference, so 10 - 2.5 is stored as 8. That rounding is not modelled; the same holds for the stock-in and create-part bodies.
- Ledger.StockOutPreservesValid, Ledger.EditStockOutPreservesValid, Ledger.HandlePreservesValid and Ledger.ReplayPreservesValid: promised for integer body quantities only. With the fractional stock-out above, a part that held 10 after one stock-in of 10 holds 8 while its movements give 10 - 3 = 7.
- Ledger.EditBackRestores: assumes a consistent store, since the record's part must exist and hold non-negative stock for the reverse edit to be accepted.
- Ledger.NamedId: an id text is read with JavaScript `Number` syntax and names an integer only when it is a decimal numeral with no non-zero fraction digit. MySQL's own conversion of other texts (`"5abc"` compares equal to 5) is not modelled: such a text names no part.
- Ledger.EditStockOut and Ledger.DeleteStockOut take the record id of the URL path as the integer it spells; a path id that is not an integer numeral is not modelled.
- Text.Trim and Text.Lower: strings are sequences of code points and only ASCII white space and ASCII capitals are recognised. JavaScript's `trim` also strips Unicode spaces, `toLowerCase` folds every script, and both count UTF-16 code units; none of that is modelled.

## Findings

| source | as written | input that shows it | evidently intended | confidence | as-written member | corrected member |
|---|---|---|---|---|---|---|
| backend/server.js:582-587 | `SUM` of stock-in and stock-out quantities over `Spare_Part LEFT JOIN Stock_In LEFT JOIN Stock_Out`, so each stock-in row is repeated once per stock-out row and vice versa | a part holding 7 after two stock-ins of 5 and one stock-out of 3: reported as 10 in and 6 out | 10 in and 3 out, each movement counted once, so that on-hand = in − out | high, not executed | Reports.FanOutOverstatesTotals | Reports.StockStatusBalanced |
