# Phone shop point of sale: the store behind the screens

This project models in Dafny the part of a small phone-shop point-of-sale
application that has rules: the SQLite database it keeps phones, sales, users
and the store profile in, and the screens that change or read that data. It
proves properties of the model. Everything is a pure function over an
immutable `Store` record:

- `phones` and `sales` are maps keyed by their AUTOINCREMENT ids;
- next-id counters stand for SQLite's AUTOINCREMENT sequence;
- `storeInfo` is the single `store_info` row.

Money is kept as whole numbers (think cents), so every sum is exact.

| module | file | what it models |
|---|---|---|
| `Wrappers` | wrappers.dfy | `Option` and `Result` |
| `Sorting` | sorting.dfy | insertion sort, de-duplication, filter, map, sums and grouped sums (the partition identity) |
| `Text` | text.dfy | decimal digits, `%02d`-style padding, Python `str(int)` and its parser, SQLite's BINARY text order, `BETWEEN` on text, `str.strip()`, `str.split(sep)[1]` |
| `Calendar` | calendar.dfy | `datetime.strptime(s, '%Y-%m-%d')` as the sales screen uses it; SQLite `strftime` with `%Y-%m-%d`, `%Y-%m`, `%Y` and `%Y-%W` (Monday-based week, week 00 before the first Monday) |
| `Schema` | schema.dfy | the tables' CHECK enums, NOT NULL columns, defaults and UNIQUE IMEI; the one-row `store_info` table; seeding; table scans in id order |
| `Sales` | sales.dfy | the sales screen: the form and its running total, recording and deleting a sale with the stock change, the phone picker, the sales list and date filter, invoice data |
| `Reports` | reports.dfy | the sales report grouped by day, week, month, year, product or payment method, with its grand total; the stock report and its filters; the brand list |
| `Catalog` | catalog.dfy | the phone catalog: save (insert or update), the admin-only delete, the list and its `LIKE` search, and the QR label text |
| `QrScan` | qrscan.dfy | what the scanner does with decoded text: log it, recognise `PHONE_ID:<id>`, look the phone up |

Central results:

- **Ledger.** A sale is refused when it would oversell, and stock never goes
  negative on the sale path (`Sales.SaveSaleKeepsLedgerSound`). Recording a
  sale and deleting it restores every table (`Sales.SaveThenDeleteRestores`).
  A phone's stock plus its units sold stays fixed under sales; only a catalog
  edit resets it (`Sales.SaveSaleKeepsBaseline`,
  `Catalog.UpdateResetsBaseline`).
- **Sales report.** The grouped rows' counts, quantities and totals add up to
  the matched sales. The rows' totals add up to the separately computed grand
  total (`Reports.GroupedFacts`, `Reports.SalesReport`). Rows come out in
  calendar order, by phone id, or in payment-method text order.
- **Week buckets.** The `%W` week number is the number of Mondays from 1
  January up to the date (`Calendar.WeekIsMondayCount`).
- **Search.** For a term without wildcards, `LIKE '%term%'` is a substring
  test that ignores ASCII case (`Catalog.LikeIsSubstring`).
- **QR labels.** The label text the catalog prints is never recognised by the
  scanner (`QrScan.CatalogLabelNotRecognised`).

Some behaviour of the code, stated plainly:

- Deleting a sale checks no role (`src/sales_manager.py:529-566`).
- A date range whose end sorts before its start gives an empty report, not an
  error (`src/reports.py:219`).
- The Product report groups by phone id, not by brand and model
  (`src/reports.py:205-207`).
- Weeks are `strftime` `%W` weeks, not ISO 8601 weeks (`src/reports.py:193`).
- Deleting a sale id that no longer exists changes nothing and reports no
  error (`src/sales_manager.py:540-543`).

## Model

| member | source | states |
|---|---|---|
| Schema.ParseRole | src/database.py:25 | a role text is accepted exactly when it is `admin` or `seller`, and each names its own role |
| Schema.ParseCondition | src/database.py:40 | a condition text is accepted exactly when it is `new`, `used` or `refurbished` |
| Schema.ParsePaymentMethod | src/database.py:71 | a payment text is accepted exactly when it is `cash`, `credit_card`, `bank_transfer` or `other` |
| Schema.PhoneRow | src/database.py:32-48 | a phone row exists exactly when brand, model and price are present and a present condition is one of the three; the bound quantity and the other columns are stored as given |
| Schema.InsertPhone | src/database.py:32-48 | an insert succeeds exactly when the row is well formed and no other phone holds its present IMEI; it takes the next id, adds only that row, and keeps present IMEIs unique |
| Schema.UpdatePhone | src/database.py:32-48 | an update of an id with no row changes nothing; otherwise it succeeds exactly when the row is well formed and the IMEI is not another phone's, and replaces only that row |
| Schema.SaleRow | src/database.py:63-78 | a sale row exists exactly when phone, user, quantity, unit price and total are present and a present payment method is valid; a NULL quantity fails NOT NULL; the bound date and the other columns are stored as given |
| Schema.InsertSale | src/database.py:63-78 | a sale insert succeeds exactly when the row is well formed, takes the next sale id, and adds only that row |
| Schema.InsertStoreInfo | src/database.py:80-91 | a store-profile insert succeeds exactly when the table is empty and the id is 1 or omitted |
| Schema.StoreInfoHoldsOneRow | src/database.py:81-90 | after one successful insert, every further store-profile insert fails |
| Schema.SeedUsers | src/database.py:102-109 | users are seeded only into an empty table: first the admin, then the seller, under the next two ids |
| Schema.SeedStoreInfo | src/database.py:111-118 | the default store profile is inserted only when there is none |
| Schema.Initialize | src/database.py:94-121 | after setup there is a user and a store profile, and phones, sales and clients are untouched |
| Schema.InitializeIdempotent | src/database.py:102-118 | running setup a second time changes nothing |
| Schema.FreshDatabaseSeeded | src/database.py:102-118 | an empty database gets exactly the admin (id 1), the seller (id 2) and the default store profile |
| Calendar.DaysInMonth | src/sales_manager.py:123-128 | a month has 28 to 31 days, and February has 29 exactly in leap years |
| Calendar.ValidateDayKey | src/sales_manager.py:123-128 | a date written as `YYYY-MM-DD` is accepted exactly when its year is at least 1 and it is a real Gregorian date |
| Calendar.FieldsOf | src/sales_manager.py:123-128 | `strptime` reads a `year-month-day` text field by field: the date is found exactly when the month and day fields both read, and it is built from their values |
| Calendar.LeapDayAccepted | src/sales_manager.py:123-128 | 29 February is accepted exactly in leap years |
| Calendar.ShortFieldsAccepted | src/sales_manager.py:123-128 | for every date, writing the month as one digit (below 10) or the day as one digit or a space and one digit (below 10) is accepted exactly when the `YYYY-MM-DD` spelling is: year 1 or later and a real date |
| Calendar.OutOfRangeRejected | src/sales_manager.py:123-128 | every text starting with year `0000` is rejected, and so is every `YYYY-MM-DD` date followed by any further text |
| Calendar.SqliteDate | src/reports.py:189 | a text `strftime` reads as a date yields a real date with a four-digit year |
| Calendar.SqliteDateOfDayKey | src/reports.py:189 | `strftime('%Y-%m-%d')` reads back every real date it writes |
| Calendar.DayKeyOfSqliteDate | src/reports.py:189 | a text `strftime` accepts is exactly the `%Y-%m-%d` text of its date |
| Calendar.DayKeyOrder | src/reports.py:189 | day buckets compare as text exactly as their dates compare in time, and are equal only for the same date |
| Calendar.MonthKeyOrder | src/reports.py:198-200 | month buckets compare as text by year, then month |
| Calendar.YearKeyOrder | src/reports.py:202-204 | year buckets compare as text as the years compare |
| Calendar.WeekKeyOrder | src/reports.py:192-196 | week buckets compare as text by year, then `%W` week number |
| Calendar.DayOfYear | src/reports.py:192 | the day of the year lies between 1 and the length of the year |
| Calendar.WeekIsMondayCount | src/reports.py:192 | the `%W` week number is the number of Mondays from 1 January up to the date |
| Calendar.WeekZeroBeforeFirstMonday | src/reports.py:192 | week 00 holds exactly the days before the year's first Monday |
| Calendar.KnownWeekdays | src/reports.py:192 | known anchor dates get their known weekdays and week numbers |
| Sales.ClearedForm | src/sales_manager.py:403-416 | a cleared form has no phone or client, today's date, quantity 1, prices 0, payment `cash`, and a total that matches |
| Sales.SetQuantity | src/sales_manager.py:394-401 | changing the quantity recomputes the total as quantity times unit price and changes nothing else |
| Sales.SelectPhone | src/sales_manager.py:361-385 | picking a listed phone copies its catalog price into the form and recomputes the total; picking an unknown id only records it |
| Sales.FormKeepsTotal | src/sales_manager.py:394-401 | the form's total stays quantity times unit price through every edit |
| Sales.SaveSale | src/sales_manager.py:469-527 | a sale is refused without a phone, below quantity 1, for a missing phone, or when stock is short; otherwise it adds exactly one sale under the next id, holding the form's phone, client (none when unchosen), user, quantity, prices, payment, date and stripped notes, and lowers only that phone's stock by the quantity |
| Sales.StoredTotalIsQuantityTimesUnitPrice | src/sales_manager.py:494-499 | the stored total of a sale made from a consistent form is quantity times unit price |
| Sales.SaleCapturesCatalogPrice | src/sales_manager.py:381 | a sale made by picking a phone stores that phone's catalog price at the time, and the total as quantity times that price |
| Sales.DeleteSale | src/sales_manager.py:529-566 | without a sale nothing happens; unconfirmed or unknown sales change nothing; a sale whose phone is gone cannot be deleted; otherwise the quantity goes back to its phone and only that sale is removed |
| Sales.SaveThenDeleteRestores | src/sales_manager.py:540-556 | recording a sale and then deleting it restores phones and sales exactly; only the id counter has advanced |
| Sales.SellingOutBlocksNextSale | src/sales_manager.py:484-489 | after a sale takes all remaining stock, any further sale of that phone is refused with 0 available |
| Sales.LastUnitSoldOnce | src/sales_manager.py:484-489 | the last unit of a phone can be sold once and not twice |
| Sales.SaveSaleKeepsLedgerSound | src/sales_manager.py:484-516 | recording a sale keeps every stock level non-negative and every sale at one unit or more |
| Sales.DeleteSaleKeepsLedgerSound | src/sales_manager.py:540-556 | deleting a sale keeps every stock level non-negative and every sale at one unit or more |
| Sales.SaveSaleKeepsBaseline | src/sales_manager.py:505-516 | recording a sale leaves each phone's stock plus units sold unchanged |
| Sales.DeleteSaleKeepsBaseline | src/sales_manager.py:540-556 | deleting a sale leaves each phone's stock plus units sold unchanged |
| Sales.PhonePicker | src/sales_manager.py:317-337 | the picker lists exactly the phones in stock, each once, ordered by brand then model |
| Sales.PhoneLabel | src/sales_manager.py:226 | a sale's phone has a label exactly when the phone still exists (the join gives NULL otherwise), and the label leads with the brand and a space |
| Sales.LoadSales | src/sales_manager.py:216-242 | the sales list holds every sale, no sale id twice, newest date first |
| Sales.FilterByDate | src/sales_manager.py:276-310 | the filter is refused when a date is empty; otherwise it lists exactly the sales dated between the two texts inclusive, no sale id twice, newest first |
| Sales.InvertedDateRangeListsNothing | src/sales_manager.py:276-310 | a range whose end sorts before its start lists nothing and is not an error |
| Sales.GenerateInvoice | src/sales_manager.py:578-617 | the invoice has the sale's id and copies the stored amounts; phone fields are empty for a deleted phone; the client's name, phone and address, or `N/A` where there is no client or the field is NULL; the seller's full name when the user exists; there is no invoice without a store profile |
| Sales.InvoiceIgnoresCatalogPrice | src/sales_manager.py:578-617 | changing a phone's catalog price does not change any invoice |
| Sales.InvoiceOfSavedSale | src/sales_manager.py:578-617 | the invoice of a sale just recorded carries the form's date, quantity, prices and payment and the chosen phone's brand and model |
| Reports.ParseGrouping | src/reports.py:188-212 | exactly the six group-by captions are understood, each as its own grouping |
| Reports.KeyOfMeaning | src/reports.py:188-217 | a calendar key is the `strftime` bucket, or NULL for an unreadable date; a product key is the phone id, or NULL for a deleted phone; a payment key is the method's text, or NULL |
| Reports.GroupedFacts | src/reports.py:214-222 | grouped rows are in strictly ascending key order, one per key that occurs; each row counts and sums its own sales; counts, quantities and totals over the rows add up to the matched sales |
| Reports.SalesReport | src/reports.py:171-233 | the report is refused when a date is empty or the grouping unknown; otherwise its rows group the sales dated in range, and its grand total equals the sum of the rows' totals |
| Reports.MatchedIsRange | src/reports.py:219 | a sale takes part in the report exactly when its date lies between the two texts |
| Reports.InvertedRangeReportsNothing | src/reports.py:219 | a range whose end sorts before its start gives no rows and a grand total of 0 |
| Reports.OutOfRangeSaleLeavesReport | src/reports.py:219 | adding a sale dated outside the range changes nothing in the report |
| Reports.SavedSaleCountsInReport | src/reports.py:228-233 | a recorded sale raises the grand total of every report whose range holds its date by its total, and no other |
| Reports.UndatedRowComesFirst | src/reports.py:220-221 | the NULL group sorts before every other row |
| Reports.DayRowsChronological | src/reports.py:189 | day rows are in calendar order |
| Reports.WeekRowsChronological | src/reports.py:192-196 | week rows are ordered by year, then by `%W` week number |
| Reports.MonthRowsChronological | src/reports.py:198-200 | month rows are ordered by year, then month |
| Reports.ProductRowsById | src/reports.py:205-207 | product rows are ordered by phone id, not by name |
| Reports.PaymentRowsInTextOrder | src/reports.py:209-211 | payment rows come in the order bank_transfer, cash, credit_card, other |
| Reports.WeekLabel | src/reports.py:193-194 | a week row is captioned `Week <WW> <YYYY>` |
| Reports.SalesReportAsWritten | src/reports.py:188-191 | every grouping except Day behaves as in the corrected report |
| Reports.DayReportFailsAsWritten | src/reports.py:188-191 | as written, the Day report always fails with no such column `Date`, while the corrected one succeeds |
| Reports.DayRowsCaptionedByDate | src/reports.py:188-191 | in the corrected Day report each dated row is captioned with its own `YYYY-MM-DD` bucket |
| Reports.ParseStockFilter | src/reports.py:264-273 | `Low Stock (<5)` selects low stock, and `By Brand` with a non-empty brand selects that brand; anything else lists everything |
| Reports.StockReport | src/reports.py:256-288 | the stock list holds exactly the selected phones, each once, ordered by brand then model, with value price times quantity; the total is over the whole catalog whatever the filter |
| Reports.AllLinesAddUpToTotal | src/reports.py:284-288 | with no filter, the line values add up to the total stock value |
| Reports.LoadBrands | src/reports.py:150-163 | the brand list is the distinct brands of the catalog in ascending order |
| Reports.OfferedBrandListsStock | src/reports.py:154-160 | filtering by a brand the list offers always lists at least one phone |
| Catalog.SavePhone | src/phone_manager.py:300-366 | saving needs brand and model and readable numbers; blank price and cost become 0 and a blank quantity 1; with a current phone it overwrites that row only, otherwise it inserts a new row and makes it current; it succeeds exactly when the row passes the table's constraints |
| Catalog.SavePhoneAsWritten | src/phone_manager.py:310-322 | as written, the same checks apply, and a form with IMEI and condition filled in saves exactly as in the corrected version |
| Catalog.SecondBlankImeiRefusedAsWritten | src/phone_manager.py:313 | as written, a second phone saved without IMEI is refused by the UNIQUE constraint |
| Catalog.BlankImeiNeverClashes | src/phone_manager.py:313 | a phone saved without IMEI never fails on IMEI uniqueness |
| Catalog.BlankConditionRefusedAsWritten | src/phone_manager.py:318 | as written, a phone saved with no condition chosen is refused by the condition CHECK |
| Catalog.BlankConditionAccepted | src/phone_manager.py:318 | a phone saved with no condition chosen is stored with no condition |
| Catalog.UpdateResetsBaseline | src/phone_manager.py:325-338 | editing a phone resets its stock-plus-sold baseline to the new quantity plus the units already sold; other phones keep theirs |
| Catalog.DeletePhone | src/phone_manager.py:376-417 | deletion needs a current phone, the admin role and confirmation; it removes only that phone, leaves its sales in place, and clears the form; a current id with no row aborts |
| Catalog.OrphanedSaleStaysRecorded | src/phone_manager.py:400-401 | once its phone is deleted, a sale can no longer be deleted |
| Catalog.DeletedIdNotReused | src/database.py:33 | a phone added after a deletion never takes the deleted phone's id |
| Catalog.LoadPhones | src/phone_manager.py:184-202 | the phone list holds every phone once, ordered by brand then model |
| Catalog.SearchPhones | src/phone_manager.py:204-230 | the search lists exactly the phones whose brand, model or present IMEI is LIKE `%term%`, ordered by brand then model |
| Catalog.LeadingPercent | src/phone_manager.py:214-220 | a pattern starting with `%` matches exactly when the rest matches some suffix |
| Catalog.LiteralThenPercent | src/phone_manager.py:214-220 | a literal followed by `%` matches exactly the texts that start with the literal, ignoring ASCII case |
| Catalog.LikeIsSubstring | src/phone_manager.py:214-220 | for a term without wildcards, `LIKE '%term%'` holds exactly when the term occurs in the text, ignoring ASCII case |
| Catalog.SearchFindsSubstrings | src/phone_manager.py:214-220 | a search for a term without wildcards lists exactly the phones whose brand, model or IMEI contains it, ignoring ASCII case |
| Catalog.WildcardSearchListsAll | src/phone_manager.py:214-220 | an empty search, or a search for `%`, lists the whole catalog |
| Catalog.GenerateQrPayload | src/phone_manager.py:419-436 | there is label text exactly when a current phone exists, and it is that phone's payload |
| Catalog.QrPayloadNamesPhone | src/phone_manager.py:435 | the first field after `PHONE:` reads back as the phone id |
| Catalog.QrPayloadFields | src/phone_manager.py:435 | when brand and model hold no `\|`, the label's fields give back brand, model and the IMEI text (`None` when absent) |
| QrScan.LookupPhoneDetails | src/qr_code.py:151-183 | a lookup shows the phone whose id the text reads as, or "Phone not found in database" |
| QrScan.ProcessQrData | src/qr_code.py:141-149 | every scan is logged as `Scanned QR Code: <text>`; a text starting `PHONE_ID:` looks up its stripped second `:` field; anything else is turned away |
| QrScan.PhoneIdField | src/qr_code.py:145-146 | the id field of a `PHONE_ID:` text runs from the first colon to the next one |
| QrScan.PhoneIdRoundTrip | src/qr_code.py:145-146 | scanning `PHONE_ID:<id>` for a phone in the catalog shows exactly that phone |
| QrScan.PaddedPhoneIdFindsPhone | src/qr_code.py:146 | any whitespace character `str.strip()` removes on either side of the id, and text after a second colon, do not change the phone found |
| QrScan.LeadingPadFindsPhone | src/qr_code.py:146 | a single whitespace character before the id, such as the no-break space in `PHONE_ID:\u00a012`, is stripped and the phone is found |
| QrScan.CatalogLabelNotRecognised | src/qr_code.py:145 | the text the catalog puts on a phone's label is never recognised as a phone code |

## Left out

- Widgets, events, message boxes and tree views are left out: they hold no rules. A dialog's answer (the delete confirmation) is a `confirmed` parameter.
- The current time is left out. The sale date and `CURRENT_TIMESTAMP` are parameters.
- The logged-in user is left out. The user id and role text are parameters, and login is not modelled.
- PDF and Excel export, invoice layout, QR image creation, camera capture, image decoding and the QR image file are left out: they are calls into other libraries and the file system. For the same reason the `qr_code_path` column is not modelled.
- Connection plumbing, backup and restore, CSV import and export, and the diagnostic scripts are left out: they are file I/O.
- Concurrency is left out. Each handler is one atomic step, matching its single commit.
- Money as Python floats, `:.2f` and `:,.2f` formatting are left out. Amounts are exact integers.
- How free text becomes a number is left out. The catalog form's numeric fields arrive as blank, a number, or unreadable; the sales form's numbers arrive as integers.
- `Calendar.SqliteDate`: SQLite also accepts times after the date, Julian day numbers and days past the month's end; the model reads only exact `YYYY-MM-DD` texts and treats every other text as NULL.
- `Calendar.ValidateDayKey`: Python's `\d` also matches non-ASCII digits; the model accepts ASCII digits only.
- `Catalog.SearchPhones`: SQLite folds only ASCII letters in LIKE, and so does the model; Unicode case folding does not arise.
- `QrScan.LookupPhoneDetails`: an id text such as `3.0` that SQLite would also convert to the integer 3 is treated as matching no phone, and so is an integer beyond 64 bits.
- `QrScan.LookupPhoneDetails`: the details text itself (its line layout and price formatting) is not modelled; the panel holds the phone's id and row.
- The sales screen's search box is left out: it is not part of the modelled screens.
- `ImeiUnique` is not part of `Valid`. Operations that keep it say so in their own contracts.
- When a phone is inserted, the source asks for its QR label before the insert is committed, over a second connection. The model leaves out this cross-connection visibility; the label text is `Catalog.GenerateQrPayload` of the stored phone.
- `Sales.SaveSale`: the source reads the sale date from `self.sale_date`, an attribute the form never defines (only `sale_date_var` and `sale_date_entry`, `src/sales_manager.py:50-51`), at `src/sales_manager.py:500`. As written, `save_sale` therefore raises AttributeError after the stock check and never records a sale. The model takes the sale date from the form's date field instead.
- `Sales.ClearedForm`: `clear_form` calls `self.sale_date.set_date` at `src/sales_manager.py:408`, on the same undefined attribute. As written, it clears the three ids and then raises AttributeError, so the quantity, prices, payment, notes and date keep their old values. The model gives the full reset the method evidently intends.

- `Sales.LoadSales`: sale dates are ordered as text. `sale_date` is declared `TIMESTAMP` (`src/database.py:72`), which gives it NUMERIC affinity in SQLite, so a stored date that reads as a number (such as `9` or `2025`) is kept as a number, and numbers sort before all text. `save_sale` does not reject such dates: the date check runs only when the field loses focus (`src/sales_manager.py:53`, `:130-133`). The model agrees with SQLite whenever no stored date reads as a number, which holds for every `YYYY-MM-DD` text.
- `Sales.FilterByDate`: `BETWEEN` is decided on text. SQLite gives the bound texts the column's NUMERIC affinity (`src/sales_manager.py:299`), so a bound such as `2025` becomes the number 2025, below every text date. The model agrees with SQLite whenever neither bound nor any stored date reads as a number.
- `Reports.SalesReport`: the range test is text-only, as for `Sales.FilterByDate` (`src/reports.py:219`, `:231`).
- `Reports.MatchedIsRange`: the range test is text-only, as for `Sales.FilterByDate`.
- `Sales.FilterByDate`: the handler reads its bounds through `self.date_from.entry.get()` (`src/sales_manager.py:277-278`) on a `DateEntry` from tkcalendar (imported at `src/sales_manager.py:6`). tkcalendar is not part of this model. If its `DateEntry` has no `entry` attribute, as written the handler raises AttributeError before any query. The model reads the entries' texts.
- `Reports.SalesReport`: the same `.entry.get()` reads of tkcalendar `DateEntry` widgets happen at `src/reports.py:172-173`. The model reads the entries' texts.
- `Schema.PhoneRow`: the DEFAULTs of `phones.quantity` and `sales.sale_date` apply only to a column an INSERT leaves out, and the modelled statements bind every column. The model binds a number for `phones.quantity` and a text for `sales.sale_date`, so an explicit NULL in either column is not modelled.
- `Catalog.SavePhone`: a blank IMEI and a blank condition are bound as NULL. The source binds the empty text (`src/phone_manager.py:313`, `:318`), which `Catalog.SavePhoneAsWritten` models; see Findings.

## Findings

| source | as written | input that shows it | evidently intended | confidence | as-written member | corrected member |
|---|---|---|---|---|---|---|
| src/reports.py:190 | the Day grouping selects a column `Date` that `sales` does not have, so SQLite rejects the query | any Day report with both dates filled in | each day row is captioned with its `YYYY-MM-DD` bucket, as Month and Year rows are | high, not executed | Reports.DayReportFailsAsWritten | Reports.DayRowsCaptionedByDate |
| src/phone_manager.py:313 | a blank IMEI is stored as the empty text, which UNIQUE treats like any other value | two phones saved without IMEI into an empty catalog: the second is refused | phones without IMEI store NULL, which UNIQUE lets repeat, as the nullable column suggests | medium, not executed | Catalog.SecondBlankImeiRefusedAsWritten | Catalog.BlankImeiNeverClashes |
| src/phone_manager.py:318 | a blank condition is stored as the empty text, which fails `CHECK(condition IN (...))` | any new phone saved with no condition chosen | a phone without a condition stores NULL, which the CHECK admits | medium, not executed | Catalog.BlankConditionRefusedAsWritten | Catalog.BlankConditionAccepted |
