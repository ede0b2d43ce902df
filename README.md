# Invoice core, modelled and proved in Dafny

This project models the server side of the invoice application:
- how a new invoice is created: request checks, numbering, totals, and an all-or-nothing write of one header and its lines;
- how an invoice is read back;
- the configuration endpoint's allow-listed upsert.

The main properties are proved about the model:
- rounding;
- date and number checking;
- unique sequential numbering;
- the order of the request checks;
- totals over taxable lines;
- atomic writes with rollback;
- the ordered read-back;
- the configuration allow-list.

Modules, one concept each:

| module | file | what it models |
|---|---|---|
| `Wrappers` | wrappers.dfy | `Option` and `Result` |
| `Php` | php.dfy | decoded JSON values and the PHP runtime pieces the endpoints rely on (see below) |
| `Money` | money.dfy | `calculateLineTotal` and `calculateTax`, with PHP's `round` |
| `Validate` | validate.dfy | `validateNumeric` |
| `Dates` | dates.dfy | `validateDate`: the lenient `DateTime::createFromFormat('Y-m-d')` parser, its day and month overflow, `format('Y-m-d')`, and the round-trip comparison |
| `Numbering` | numbering.dfy | `generateInvoiceNumber`, as a function of the stored invoice rows, the prefix and the year |
| `Schema` | schema.dfy | the rows of the tables |
| `Store` | store.dfy | the database as a class |
| `InvoiceRequest` | request.dfy | the request checks and the totals loop of the invoices endpoint |
| `Invoices` | invoices.dfy | POST and GET of the invoices endpoint |
| `Config` | config.dfy | GET and POST of the configuration endpoint |

The `Php` module covers:
- json_decode arrays, where the last duplicate key wins;
- `isset`, `empty` and `(bool)`;
- `is_numeric`, `floatval` and `intval`;
- `trim` and `str_pad`.

The `Store` class holds:
- a read-only catalog and three mutable tables;
- auto-increment counters;
- one transaction, with `beginTransaction`, `commit` and `rollBack`;
- the constraints the schema enforces: unique invoice numbers, foreign keys, and unique configuration keys.

Representation:
- Money is integer cents.
- Quantities, and every JSON number (`Num(h)` is h / 100), are integer hundredths.
- Tax rates are integer hundredths of a percent.
- PHP's `round` is `Money.RoundDiv`, which rounds halves away from zero.

Values from outside the code are parameters:
- the clock's year (`date('Y')`);
- `INVOICE_PREFIX` and `TAX_RATE`, which are defined in a configuration file that is not part of this model;
- database failures, as a `Store.Fault`. `FailAt(step)` says which statement of the transaction throws:
  - for an invoice: numbering is step 0, the header insert step 1, item k step k + 2, and the commit comes after the last item;
  - for the configuration: step i is the i-th upsert and the commit comes after the last one.

The endpoints' methods follow the code's structure:
- loops where the code loops:
  - the item checks;
  - the totals accumulator;
  - the per-item insert loop;
  - the configuration fold;
  - the upsert loop.
- transactions on the `Store.Database` object.

Each method is proved against a specification function (`CheckRequest`, `Subtotal`, `TaxableAmount`, `Header`, `Numbered`, `ConfigArray`, `UpsertAll`). The properties are then proved about those functions.

The model follows the code as written:
- an item quantity must be at least 0.01;
- `taxable` is never checked, only cast with `(bool)`, and defaults to true;
- a request reports only its first failing check;
- a configuration value is stored as the decoded value.

## Model

| member | source | states |
|---|---|---|
| Money.RoundDiv | includes/functions.php:192-205 | PHP's `round` of n / d to a whole unit, halves away from zero; its meaning is stated by RoundDivBounds and RoundDivUnique |
| Money.LineTotal | includes/functions.php:192-194 | `calculateLineTotal`: quantity × unit price rounded to cents; its meaning is stated by LineTotalRounds |
| Money.Tax | includes/functions.php:203-205 | `calculateTax`: amount × rate / 100 rounded to cents; its meaning is stated by TaxRounds |
| Money.RoundDivBounds | includes/functions.php:192-205 | `round` of n / d lies within half a unit of the exact quotient, a half going away from zero |
| Money.RoundDivUnique | includes/functions.php:192-205 | any integer within half a unit (ties away from zero) is the rounded value: the rounding is uniquely determined |
| Money.RoundDivExact | includes/functions.php:192-205 | an exact multiple of the unit rounds to itself |
| Money.LineTotalRounds | includes/functions.php:192-194 | r is the line total exactly when 100·r is within half a cent of quantity × unit price, halves away from zero |
| Money.WholeQuantityExact | includes/functions.php:192-194 | a whole quantity gives the exact product without rounding (2 × 100.00 = 200.00) |
| Money.LineTotalNonNegative | includes/functions.php:192-194 | a non-negative quantity and price give a non-negative line total |
| Money.TaxRounds | includes/functions.php:203-205 | r is the tax exactly when it is amount × rate / 100 % rounded to cents, halves away from zero |
| Money.TaxOfZero | includes/functions.php:203-205 | a zero amount or a zero rate gives 0.00 tax |
| Money.TaxAtMostAmount | includes/functions.php:203-205 | at a rate from 0 to 100 % the tax lies between 0 and the amount |
| Money.TaxMonotone | includes/functions.php:203-205 | a larger taxable amount never gives less tax |
| Validate.ValidateNumeric | includes/functions.php:56-72 | accepts exactly the numeric values v with min ≤ v ≤ max; an absent bound imposes nothing, and a non-numeric value is always rejected |
| Php.IsSet | api/invoices.php:81 | `isset`: the key is present and its value is not null |
| Php.Falsy | api/invoices.php:81 | PHP's falsy values, the test behind `empty`: null, false, 0, "", "0" and the empty array; FalsyNumeric states what that means for numbers |
| Php.NumericText | includes/functions.php:57 | `is_numeric` of a string, with its value: optional surrounding whitespace, an optional sign, digits with at most two decimals; see FloatValNumeric and NumericNatText |
| Php.NumericValue | includes/functions.php:57 | `is_numeric` of a value: numbers and numeric strings, with the number they denote |
| Php.FloatVal | includes/functions.php:61 | `floatval`: the numeric prefix of a string after whitespace (0 when there is none), a number itself, 1 or 0 for booleans and arrays; FloatValNumeric states that it agrees with `is_numeric` |
| Php.IntVal | includes/functions.php:97 | `intval` of a string: leading whitespace, an optional sign, then the leading digits (0 when there are none); see IntValOfDigits and IntValNatText |
| Php.Lookup | api/invoices.php:73-82 | `$a[$k]` is absent exactly when no pair has the key; otherwise it is the last pair with it |
| Php.AssignLookup | api/config.php:26-29 | after `$a[$k] = $v` the key reads v and every other key reads as before |
| Php.AssignDistinct | api/config.php:26-29 | an assignment keeps an array's keys distinct, and adds no key except k |
| Php.ArrayOfLookup | api/invoices.php:73 | the array json_decode builds reads every key as the decoded members do (last duplicate wins) |
| Php.ArrayOfDistinct | api/config.php:36 | the array json_decode builds holds each key once |
| Php.FalsyNumeric | api/invoices.php:82 | an `empty` value is no number, or zero |
| Php.FloatValNumeric | includes/functions.php:57-61 | `floatval` of a value that `is_numeric` accepts is the number it recognised |
| Php.ScanAllDigits | includes/functions.php:57 | a digit string scans whole, as that many units |
| Php.NumericNatText | includes/functions.php:57 | the decimal text of a natural number is a numeric string for it |
| Php.IntValOfDigits | includes/functions.php:97 | `intval` reads a leading digit run |
| Php.IntValNatText | includes/functions.php:97 | `intval` reads back the decimal text of a natural number |
| Php.NegativeIntVal | includes/functions.php:97 | `intval` reads a minus sign before digits as a negative number |
| Php.LeadingZerosValue | includes/functions.php:97-104 | leading zeros do not change the value of a digit string |
| Php.NatTextValue | includes/functions.php:104 | the decimal text of n has the value n |
| Php.NatTextLength | includes/functions.php:104 | n has at most k digits exactly when n < 10^k |
| Php.PadLeft | includes/functions.php:104 | `str_pad(..., STR_PAD_LEFT)` never truncates: the result is the input after pad characters, with the longer of the two lengths |
| Php.PaddedNatIntVal | includes/functions.php:97-104 | `intval` reads back a zero-padded natural number |
| Php.PaddedIntVal | includes/functions.php:97-104 | `intval` reads back a zero-padded number exactly when it is non-negative, and never lower than it otherwise |
| Php.TrimStart | api/invoices.php:127 | the stripped text is empty exactly when every character is whitespace, and otherwise does not start with whitespace |
| Php.TrimEnd | api/invoices.php:127 | likewise for the end of the text |
| Php.Trim | api/invoices.php:127 | `trim` is empty exactly when every character is whitespace, and otherwise neither starts nor ends with whitespace |
| Php.TrimEndPrefix | api/invoices.php:127 | stripping the end leaves a prefix of the text |
| Dates.Format | includes/functions.php:45 | `format('Y-m-d')`: year, month and day joined by '-', month and day as two digits; see FormatFields and ParseFormat |
| Dates.ValidateDate | includes/functions.php:43-46 | `validateDate`: the string parses with 'Y-m-d' and the normalised date formats back to the same string; its meaning is stated by ValidateDateExact and ValidateDateAccepts |
| Dates.DaysInMonth | includes/functions.php:44 | every month has 28 to 31 days |
| Dates.TakeDigits | includes/functions.php:44 | a field takes at most its width in digits, greedily: the rest never starts with a digit unless the field is full |
| Dates.TakeDigitsOf | includes/functions.php:44 | a digit string that fills the field, or ends at a non-digit, is read whole |
| Dates.TakeDigitsLong | includes/functions.php:44 | a digit run longer than the field leaves a digit behind |
| Dates.NumberOf | includes/functions.php:44 | a field of one to `max` digits before a non-digit parses to its value |
| Dates.Parse | includes/functions.php:44 | a parse gives a year of at most four digits and a month and day of at most two |
| Dates.ParseFields | includes/functions.php:44 | four year digits, two month digits and two day digits joined by '-' parse to their values |
| Dates.ParseDash | includes/functions.php:44 | a leading minus sign is rejected by 'Y' |
| Dates.ParseLongYear | includes/functions.php:44 | a year of five or more digits is rejected |
| Dates.Forward | includes/functions.php:44 | running days past a month's end always lands on a calendar date |
| Dates.Normalize | includes/functions.php:44 | the overflowing parser always yields a calendar date |
| Dates.NormalizeCalendar | includes/functions.php:44 | a calendar date is left as it is |
| Dates.MonthCarry | includes/functions.php:44 | month 13 overflows into January of the next year |
| Dates.Two | includes/functions.php:45 | a two-digit field is two digits with the value |
| Dates.TwoDigits | includes/functions.php:45 | `format('m')` and `format('d')` write two digits with the value |
| Dates.YearText | includes/functions.php:45 | `format('Y')` is never empty |
| Dates.FourDigitYear | includes/functions.php:45 | a year from 0 to 9999 is written as exactly four digits with its value |
| Dates.FormatFields | includes/functions.php:45 | `format` writes a date with four-, two- and two-digit fields exactly as those fields |
| Dates.ParseFormat | includes/functions.php:44-45 | parsing what `format` wrote gives the date back, exactly when the year has at most four digits |
| Dates.ValidatedLength | includes/functions.php:43-46 | an accepted date has at least seven characters |
| Dates.ValidateDateExact | includes/functions.php:43-46 | a string passes exactly when it parses to a calendar date whose `YYYY-MM-DD` text is the string itself |
| Dates.ValidateDateAccepts | includes/functions.php:43-46 | every calendar date of years 0 to 9999, written `YYYY-MM-DD`, passes |
| Dates.RejectsNonCalendar | includes/functions.php:43-46 | the text of anything that is not a calendar date never passes |
| Dates.LeapDayAccepted | includes/functions.php:43-46 | February 29 passes in a leap year |
| Dates.NonLeapDayRejected | includes/functions.php:43-46 | February 29 fails in a common year, where it overflows to March 1 |
| Dates.MonthThirteenRejected | includes/functions.php:43-46 | month 13 fails, because it overflows into the next year |
| Numbering.NextSequence | includes/functions.php:95-101 | 1 when no number of the year exists, otherwise `intval` of the last number's suffix plus one; see FirstOfYear and ContinuesFromLast |
| Numbering.FormatNumber | includes/functions.php:104 | the prefix followed by the sequence zero-padded to three characters; see FormatNumberShape |
| Numbering.GenerateInvoiceNumber | includes/functions.php:80-105 | `generateInvoiceNumber`: the year's prefix and the next sequence of that prefix; see GeneratedIsFresh |
| Numbering.LastMatching | includes/functions.php:85-93 | the query finds nothing exactly when no number has the prefix, and otherwise a matching row with the highest id |
| Numbering.FormatNumberShape | includes/functions.php:104 | the number is the prefix and a suffix of at least three characters that `intval` reads back as the sequence; from 1000 on the suffix is the plain decimal text |
| Numbering.FirstOfYear | includes/functions.php:95-104 | with no number of the year yet, the number is `<prefix><year>-001` |
| Numbering.ContinuesFromLast | includes/functions.php:95-104 | otherwise it formats the `intval` suffix of the highest-id matching row, plus one |
| Numbering.BelowNext | includes/functions.php:95-98 | when numbers rise with ids, every stored suffix reads below the next sequence |
| Numbering.DifferentSuffix | includes/functions.php:95-104 | a number whose suffix reads higher than every stored one equals none of them |
| Numbering.AppendRising | includes/functions.php:95-104 | appending a higher-id row with a higher suffix keeps the numbers rising with the ids |
| Numbering.GeneratedIsFresh | includes/functions.php:80-105 | when stored numbers rise with ids, the generated number differs from every stored one, and storing it under a larger id keeps that ordering |
| InvoiceRequest.NumberDescription | api/invoices.php:127 | a numeric description is never blank after `trim` |
| InvoiceRequest.CheckItemFieldsMeaning | api/invoices.php:115-129 | an item passes its four checks exactly when the product id is ≥ 1, the quantity ≥ 0.01, the price ≥ 0 and the trimmed description is not empty; a failure names the position |
| InvoiceRequest.ItemErrorNone | api/invoices.php:114-130 | one item's checks pass exactly on a valid item, and a failure is an item error naming the position |
| InvoiceRequest.FirstErrorMeaning | api/invoices.php:114-130 | the first error is absent exactly when every check passes, and is otherwise a failing check with all before it passing |
| InvoiceRequest.FirstItemErrorNone | api/invoices.php:114-130 | the item loop reports no error exactly when every item is valid |
| InvoiceRequest.FirstItemErrorPosition | api/invoices.php:114-130 | a reported item error names a 1-based position n, is the outcome of item n, and every earlier item passed |
| InvoiceRequest.FirstItemErrorFirst | api/invoices.php:114-130 | a reported item error names the first invalid item: that item is invalid and every earlier one valid |
| InvoiceRequest.ValidateItems | api/invoices.php:114-130 | the `foreach` with early exits reports the first item error |
| InvoiceRequest.TaxRate | api/invoices.php:108 | the request's `floatval` tax rate when it is set, otherwise the default rate |
| InvoiceRequest.CheckRequest | api/invoices.php:80-130 | the checks in the code's order, giving the first failure or the tax rate; its meaning is stated by CheckRequestValid, MissingFieldNamed and ItemErrorPosition |
| InvoiceRequest.CheckPresence | api/invoices.php:80-85 | the presence checks fail only with "Field '…' is required" |
| InvoiceRequest.CheckFormats | api/invoices.php:87-100 | the format checks fail only with a customer, invoice date or due date error |
| InvoiceRequest.CheckShape | api/invoices.php:102-111 | the shape checks fail only with the no-items or the tax-rate error |
| InvoiceRequest.CheckHeader | api/invoices.php:80-111 | the checks before the items never report an item error |
| InvoiceRequest.CustomerCheck | api/invoices.php:88-90 | a non-empty customer id passes `validateNumeric(..., 1)` exactly when it is a number ≥ 1 |
| InvoiceRequest.DateCheck | api/invoices.php:93-95 | a present, non-empty invoice date passes exactly when it is a valid date |
| InvoiceRequest.ItemsCheck | api/invoices.php:103-105 | the items pass exactly when they form a non-empty array |
| InvoiceRequest.RateCheck | api/invoices.php:108-111 | the rate passes exactly when it lies in [0, 100] % |
| InvoiceRequest.CheckHeaderMeaning | api/invoices.php:80-111 | the checks before the items pass exactly on a valid customer id, valid dates, non-empty items and a rate in range |
| InvoiceRequest.CheckFieldsMeaning | api/invoices.php:80-130 | all checks pass exactly when the header fields are valid and every item is valid, and they then give the rate |
| InvoiceRequest.CheckRequestValid | api/invoices.php:80-130 | a request passes exactly when it is valid, and the rate is `floatval($input['tax_rate'])` or the default rate |
| InvoiceRequest.MissingFieldNamed | api/invoices.php:80-85 | a missing customer, date or item list, or an empty item list, is reported first and by name |
| InvoiceRequest.ItemErrorPosition | api/invoices.php:80-130 | an item error comes only after every header check passed, and names the first invalid item's 1-based position |
| InvoiceRequest.ValidateRequest | api/invoices.php:80-130 | the endpoint's checks, with their early exits, compute the result of the check pipeline |
| InvoiceRequest.Subtotal | api/invoices.php:140-151 | the sum of every item's line total; computed by ComputeTotals |
| InvoiceRequest.TaxableAmount | api/invoices.php:140-151 | the sum of the line totals of the taxable items; see TaxableIsSumOfTaxableLines and TaxableWithinSubtotal |
| InvoiceRequest.FlaggedSumIsSumOfSelected | api/invoices.php:147-150 | the taxable accumulator is the sum of the taxable amounts alone |
| InvoiceRequest.FlaggedSumWithin | api/invoices.php:140-151 | with non-negative amounts, the taxable sum lies between 0 and the full sum |
| InvoiceRequest.NoFlagNoSum | api/invoices.php:147-150 | with no flag set the taxable sum is 0 |
| InvoiceRequest.AllFlagsWholeSum | api/invoices.php:147-150 | with every flag set the taxable sum is the full sum |
| InvoiceRequest.TaxableIsSumOfTaxableLines | api/invoices.php:140-151 | the taxable amount is the sum of the line totals of the taxable items |
| InvoiceRequest.TaxableWithinSubtotal | api/invoices.php:140-151 | for valid items the taxable amount lies between 0 and the subtotal |
| InvoiceRequest.NothingTaxable | api/invoices.php:147-154 | with no taxable item the taxable amount and the tax are 0 |
| InvoiceRequest.EverythingTaxable | api/invoices.php:147-151 | when every item is taxable the whole subtotal is taxed |
| InvoiceRequest.ComputeTotals | api/invoices.php:140-151 | the accumulator loop computes the subtotal (all line totals) and the taxable amount (taxable line totals only) |
| InvoiceRequest.TestItemFields | api/invoices.php:143-147 | a line's total is `calculateLineTotal` of its quantity and price, and its flag is the `taxable` given |
| InvoiceRequest.TwoItemTotals | api/invoices.php:140-151 | the totals of two items are the sums of their line totals, taxable ones only for the taxable amount |
| InvoiceRequest.MixedTaxScenario | tests/api_tests.php:130-137 | 2 × 100.00 taxable and 1 × 50.00 non-taxable at 10 % give 250.00, 20.00 tax and 270.00 total |
| InvoiceRequest.NonTaxableScenario | tests/api_tests.php:234-237 | 100.00 and 50.00, both non-taxable, at 10 % give 150.00, no tax and 150.00 total |
| Store.UpsertRows | api/config.php:45-49 | `INSERT ... ON DUPLICATE KEY UPDATE` on the configuration table; its meaning is stated by UpsertRowsShape |
| Store.Database.Valid | api/invoices.php:184-235 | the schema's constraints: ascending ids below the counters, unique invoice numbers, existing customers, invoices and products, unique configuration keys; while a transaction is open they also hold for the saved tables |
| Store.UpsertRowsShape | api/config.php:45-49 | `ON DUPLICATE KEY UPDATE` changes the row with the key in place and no other one, or appends a row when the key is new |
| Store.UpsertKeepsKeysDistinct | api/config.php:45-49 | the upsert keeps configuration keys unique |
| Store.Database.BeginTransaction | api/invoices.php:133 | remembers the tables and changes nothing |
| Store.Database.Commit | api/invoices.php:239 | keeps the tables as they are and ends the transaction |
| Store.Database.RollBack | api/invoices.php:253 | restores the tables to their state at `beginTransaction`; the counters keep their values |
| Store.Database.InsertInvoice | api/invoices.php:184-197 | the header is appended under the next id exactly when its number is new and its customer exists; otherwise nothing changes |
| Store.Database.AppendInvoiceValid | api/invoices.php:184-197 | appending such a header keeps the schema's constraints |
| Store.Database.InsertItem | api/invoices.php:226-235 | the line is appended under the next id exactly when its invoice and product exist; otherwise nothing changes |
| Store.Database.UpsertConfig | api/config.php:55-58 | the configuration table becomes the upsert of the key, and nothing else changes |
| Invoices.Header | api/invoices.php:140-195 | the header row the endpoint inserts: the request's customer and dates, subtotal, tax on the taxable amount, their total, and notes and status or their defaults; computed by BuildHeader |
| Invoices.PrepareLines | api/invoices.php:222-235 | one prepared line per item, in input order |
| Invoices.LineRows | api/invoices.php:222-235 | one row per line, each under the new invoice id, with `sort_order` = position + 1 and the line's product |
| Invoices.Numbered | api/invoices.php:226-235 | the store gives the rows consecutive ids from the next one on, leaving the rows otherwise as they are |
| Invoices.InsertLines | api/invoices.php:222-236 | the per-item insert loop succeeds exactly when no insert throws and every product exists, and then appends every row in order under consecutive ids |
| Invoices.AcceptedLines | api/invoices.php:222-236 | the line inserts all succeed exactly when none throws and every line's product exists |
| Invoices.BuildHeader | api/invoices.php:140-195 | the header built from the totals loop is the specified header: request customer and dates, subtotal, tax on taxable lines, total = subtotal + tax, notes default '', status default 'draft', due date default null |
| Invoices.WriteInvoice | api/invoices.php:158-255 | the inserts and commit succeed exactly when no step throws, the number is new, the customer and every product exist; then one header and its lines are appended; otherwise all three tables equal their state at `beginTransaction` |
| Invoices.StoreInvoice | api/invoices.php:133-255 | the transaction either appends exactly the header with the generated number and one row per item, in input order with `sort_order` 1..n, or leaves the tables as they were and reports a database error |
| Invoices.CreateInvoice | api/invoices.php:80-255 | a request failing a check reports that check's error and changes nothing, counters included; a valid one is stored as a whole, in input order, or not at all |
| Invoices.FindInvoice | api/invoices.php:29-45 | the lookup finds nothing exactly when no header has the id, and otherwise a header with that id |
| Invoices.FindCustomer | api/invoices.php:40 | the join finds nothing exactly when the customer is missing, and otherwise that customer |
| Invoices.FindProduct | api/invoices.php:59 | the join finds nothing exactly when the product is missing, and otherwise that product |
| Invoices.JoinLines | api/invoices.php:52-65 | `invoice_items INNER JOIN products WHERE invoice_id = :id`, in table order; see JoinSound and JoinComplete |
| Invoices.JoinSound | api/invoices.php:52-65 | every joined line is an item row of the invoice with its own product |
| Invoices.JoinComplete | api/invoices.php:52-65 | every item row of the invoice whose product exists is joined |
| Invoices.JoinAppend | api/invoices.php:52-65 | the join of two runs of rows is the join of each, in order |
| Invoices.JoinNone | api/invoices.php:52-65 | rows of other invoices join to nothing |
| Invoices.JoinAll | api/invoices.php:52-65 | rows all of one invoice whose products exist join one line each, in order |
| Invoices.InsertPermutes | api/invoices.php:61 | inserting a line into sorted lines keeps every line |
| Invoices.InsertSorted | api/invoices.php:61 | inserting a line into sorted lines keeps them sorted by `sort_order` |
| Invoices.SortByOrder | api/invoices.php:61 | `ORDER BY sort_order ASC`, as a stable insertion sort; see SortSorts and SortPermutes |
| Invoices.SortSorts | api/invoices.php:61 | `ORDER BY sort_order ASC` gives lines in non-decreasing `sort_order` |
| Invoices.SortPermutes | api/invoices.php:61 | the ordering keeps exactly the lines it is given (a permutation) |
| Invoices.SortKeepsSorted | api/invoices.php:61 | lines already in order are left as they are |
| Invoices.GetInvoice | api/invoices.php:22-65 | GET of one invoice: the id check, the header with its customer, and the sorted joined lines; its meaning is stated by GetInvoiceMeaning |
| Invoices.GetInvoiceMeaning | api/invoices.php:22-65 | GET rejects a missing or non-numeric id. It reports an unknown id, or a missing customer, as not found. Otherwise it answers with the header of that id and its customer. The lines are exactly the invoice's rows whose product exists, each with its product, ordered by `sort_order` |
| Invoices.FindNew | api/invoices.php:29-45 | a header appended under a new, higher id is the one found under that id |
| Invoices.JoinNew | api/invoices.php:52-65 | the lines of a new invoice join one each, in order, and are already sorted |
| Invoices.GetAfterCreate | api/invoices.php:22-65 | GET with the id of a created invoice answers with the new header, its customer and exactly the new lines, in input order |
| Config.ConfigArray | api/config.php:22-31 | GET: the array that `$config[key] = value` over the rows builds; computed by GetConfig, and see ConfigArrayLookup |
| Config.RowPairs | api/config.php:22-23 | the fetched rows as key/value pairs, in table order |
| Config.GetConfig | api/config.php:26-29 | the `foreach` builds the array of `$config[key] = value` over the rows in turn |
| Config.ConfigArrayDistinct | api/config.php:26-29 | GET holds every key once |
| Config.ConfigArrayLookup | api/config.php:22-31 | GET reads a key as the last row with it, or not at all when no row has it |
| Config.ConfigArrayRows | api/config.php:22-31 | with unique stored keys, GET reads every row's value |
| Config.Pairs | api/config.php:53 | the members of the input array that `foreach` visits; a non-object input has none with a string key |
| Config.Filtered | api/config.php:54 | keeps, in order, the pairs whose key is in the allow-list; see FilteredLookup |
| Config.Writes | api/config.php:51-59 | the upserts POST makes: the allowed members of the input, in order; see WritesLookup |
| Config.FilteredLookup | api/config.php:51-59 | the filter keeps exactly the allowed keys, with their values |
| Config.WritesLookup | api/config.php:53-59 | POST writes each allowed key of the input with the value the decoded input gives it, and nothing else |
| Config.UpsertAll | api/config.php:53-60 | the upserts keep the configuration keys unique |
| Config.UpsertRowsLookup | api/config.php:45-49 | an upsert sets its key and leaves every other key as it was |
| Config.UpsertAllLookup | api/config.php:53-60 | after the upserts a key reads the last value written to it or, when none was, its old value |
| Config.UpsertPairs | api/config.php:53-60 | the upsert loop runs to the end exactly when no upsert throws, and then leaves the table as the upserts of exactly the allowed pairs, in order |
| Config.PostConfig | api/config.php:36-68 | a falsy or non-array input is rejected with nothing written. Otherwise POST succeeds exactly when no upsert and not the commit throw, and then stores the allowed upserts. A failure rolls back every write the request made |
| Config.PostThenGet | tests/api_tests.php:189-204 | after a POST, GET reads each allowed input key as its input value, and every other key as before |
| Config.OnlyAllowedChange | api/config.php:51-59 | a key outside the allow-list never changes |
| Config.PostIdempotent | api/config.php:45-60 | POSTing the same input twice reads as POSTing it once |

## Left out

- HTTP and I/O are out of the model:
  - `sendJSON`, `sendError` and `sendSuccess` become returned values, and their HTTP status codes are the values of `Status()`;
  - headers, CORS and `getDB` are out;
  - `logError` and `error_log` are out.
- JSON decoding is out: the model starts from the decoded value. The 'Invalid JSON data' error is therefore not modelled.
- `sanitize`, `validateEmail` and `formatCurrency` are left out: they call library functions (`htmlspecialchars`, `filter_var`, `number_format`) and the endpoints do not use them.
- The customers and products endpoints, the UI and the 'Method not allowed' answer are left out. The catalog is a read-only input.
- `includes/db.php`, which defines `INVOICE_PREFIX`, `TAX_RATE`, `getDB` and the schema, is not part of this model. The constants are parameters, and the schema's constraints are the ones the endpoints depend on.
- Concurrency is left out: the transactions run one after another. The race between reading the last number and inserting the new one is therefore not modelled.
- Floating point is replaced by exact fixed-point integers, so binary rounding artefacts before `round` are left out.
- Php.NumericText: a numeric string with an exponent, or with more than two decimals, counts as not numeric, whereas PHP's `is_numeric` accepts both. In the model `?id=1e1` therefore answers `InvoiceIdRequired`, where the source looks up invoice 10. A quantity of "1.005" is rejected as an invalid quantity, where the source accepts it.
- Php.FloatVal: reads at most two decimals of a numeric prefix and stops at an exponent, so `floatval` of "1e1" is 1 in the model and 10 in PHP.
- Php.IntVal and Php.IntValOfDigits: `intval` is read as whitespace, an optional sign and a digit run. The exponent and decimal-exponent forms that PHP's `intval` reads as a whole are not modelled: PHP gives 1000 for "1e3" and 1500 for "1.5e3", and the model gives 1 for both. IntValOfDigits therefore holds for PHP only when the rest does not continue the number with an exponent. Through Numbering.NextSequence, a stored number "INV2026-1e3" would make PHP continue with "INV2026-1001" and the model with "INV2026-002". Numbers the endpoint writes itself always have a suffix of digits only.
- `intval` saturation at 64 bits is not modelled.
- Numbering.LastMatching: `LIKE` is modelled as a case-sensitive prefix match, without `%` or `_` inside the prefix.
- Dates.Parse: 'Y' is read as at most four digits, so years after 9999 are left out.
- Invoices.StoreInvoice: column conversions are simplified:
  - integer columns take the rounded number;
  - dates, notes and status are stored as the decoded request value;
  - MySQL's conversion of '' into a DATE column is not modelled.
- Config.PostConfig:
  - the configuration value is stored as the decoded value, without the string conversion of the `config_value` column;
  - the text of the exception after 'Configuration operation failed: ' is not modelled;
  - a failing GET query is not modelled.
- Invoices.CreateInvoice:
  - a failing `beginTransaction` is not modelled;
  - PHP exceptions other than database failures (which would give status 500 with their own message) are all reported as the one database error.
- Invoices.WriteInvoice: auto-increment counters are not rolled back, as in InnoDB. The model states the tables after a rollback, not the counters.
- Store.Database.InsertInvoice and Store.Database.InsertItem: an insert that fails on a constraint leaves the counter unchanged in the model. InnoDB uses up the generated id even when the statement fails. After a header insert with an unknown customer, the next invoice therefore gets id N + 1 in MySQL and N in the model. Ids are opaque to every other promise of the model.
- Invoices.SortByOrder: the order of rows that tie on `sort_order` is modelled as table order. SQL leaves it open, and the model's created invoices never tie.
- Invoices.FindProduct and Invoices.FindCustomer take the first matching row. The catalog's primary keys make the match unique.
- Invoices.LineRows and InvoiceRequest.Elements: items sent as a JSON object are taken in the order of their members and numbered by position, not by key. This differs from the source in two ways:
  - For numeric keys, the source uses the key in `sort_order` (api/invoices.php:234) and in the item messages (:116-128). With `{"4": A, "2": B}` it stores `sort_order` 5 and 3, so GET returns B before A; the model stores 1 and 2. `Invoices.GetAfterCreate` states input order for the model, which matches the source only for items sent as a list.
  - For non-numeric keys, `$index + 1` at api/invoices.php:234 throws a `TypeError` after the header insert. The script ends with a fatal error, without the JSON answer and without calling `rollBack`, and the open transaction is discarded when the connection closes. The model stores the invoice and answers `Created`.
- InvoiceRequest.CheckFormats: an `invoice_date` or `due_date` that is an array makes `DateTime::createFromFormat` (includes/functions.php:44) throw a `TypeError`. That is not an `Exception`, so the catches at api/invoices.php:261-266 miss it, and the script ends with a fatal error and no JSON answer. The model answers with the date's check error (status 400) instead.
- InvoiceRequest.Description: an item description that is an array makes `trim` at api/invoices.php:127 throw a `TypeError`, and the script ends the same way. The model answers `DescriptionRequired` for that item instead.
- Config.Pairs: a list input has integer keys, which under PHP 8 `in_array` never equal an allowed key, so it writes nothing.
