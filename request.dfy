/**
 * The request checks and the totals of the invoice-creation endpoint,
 * api/invoices.php.
 *
 * The checks run in the endpoint's order and the first failing one decides
 * the error. All of them run before the transaction starts. The totals are
 * sums over the items in request order.
 */
module InvoiceRequest {
  import opened Wrappers
  import opened Php
  import opened Money
  import opened Validate
  import Dates

  /** The errors the endpoint reports with `sendError`. */
  datatype ApiError =
    | FieldRequired(field: string)
    | InvalidCustomerId
    | InvalidInvoiceDate
    | InvalidDueDate
    | NoItems
    | InvalidTaxRate
    | InvalidProductId(item: nat)
    | InvalidQuantity(item: nat)
    | InvalidUnitPrice(item: nat)
    | DescriptionRequired(item: nat)
    | InvoiceIdRequired
    | InvoiceNotFound
    | DatabaseError
  {
    /** The errors about one item of the request. */
    predicate ForItem()
    {
      InvalidProductId? || InvalidQuantity? || InvalidUnitPrice? || DescriptionRequired?
    }

    /** The HTTP status: 404 for a missing invoice, 500 for a failed
        transaction, 400 otherwise. */
    function Status(): int
    {
      match this
      case InvoiceNotFound => 404
      case DatabaseError => 500
      case _ => 400
    }

    function Message(): string
    {
      match this
      case FieldRequired(f) => "Field '" + f + "' is required"
      case InvalidCustomerId => "Invalid customer ID"
      case InvalidInvoiceDate => "Invalid invoice date format. Use YYYY-MM-DD"
      case InvalidDueDate => "Invalid due date format. Use YYYY-MM-DD"
      case NoItems => "At least one item is required"
      case InvalidTaxRate => "Invalid tax rate. Must be between 0 and 100"
      case InvalidProductId(k) => "Invalid product ID for item " + NatText(k)
      case InvalidQuantity(k) => "Invalid quantity for item " + NatText(k)
      case InvalidUnitPrice(k) => "Invalid unit price for item " + NatText(k)
      case DescriptionRequired(k) => "Description is required for item " + NatText(k)
      case InvoiceIdRequired => "Invoice ID is required"
      case InvoiceNotFound => "Invoice not found"
      case DatabaseError => "Database error occurred"
    }
  }

  // ---------------------------------------------------------------- request values

  /** A read of an absent key, null. */
  function OrNull(v: Option<Value>): Value
  {
    if v.Some? then v.value else Null
  }

  /** `$v[$key]`, null when absent. */
  function FieldOr(v: Value, key: string): Value
  {
    OrNull(Field(v, key))
  }

  /** The values `foreach` visits, in order: an object's values in the
      order of the array `json_decode` builds from it. */
  function Elements(v: Value): seq<Value>
  {
    match v
    case List(e) => e
    case Assoc(f) =>
      var a := ArrayOf(f);
      seq(|a|, i requires 0 <= i < |a| => a[i].1)
    case _ => []
  }

  /** A date field that `validateDate` accepts. */
  predicate IsDate(v: Value)
  {
    v.Str? && Dates.ValidateDate(v.s)
  }

  /** PHP's text of a number, as `trim` and string columns see it: no
      trailing zeros in the decimals and no point for a whole number. */
  function NumberText(h: int): string
  {
    var a := if h < 0 then -h else h;
    var frac := a % 100;
    var decimals :=
      if frac == 0 then ""
      else if frac % 10 == 0 then "." + [DigitChar(frac / 10)]
      else "." + [DigitChar(frac / 10), DigitChar(frac % 10)];
    (if h < 0 then "-" else "") + NatText(a / 100) + decimals
  }

  /** The string conversion of a scalar; arrays have none. */
  function Text(v: Value): Option<string>
  {
    match v
    case Str(s) => Some(s)
    case Num(h) => Some(NumberText(h))
    case Bool(b) => Some(if b then "1" else "")
    case Null => Some("")
    case _ => None
  }

  /** `trim($item['description'])`. */
  function Description(v: Value): string
  {
    match Text(v)
    case Some(t) => Trim(t)
    case None => ""
  }

  /** A number's text always keeps a digit through `trim`. */
  lemma NumberDescription(h: int)
    ensures Description(Num(h)) != ""
  {
    var s := NumberText(h);
    var k := if h < 0 then 1 else 0;
    var a := if h < 0 then -h else h;
    assert s[k] == NatText(a / 100)[0];
    assert IsDigit(s[k]) && !IsTrimChar(s[k]);
  }

  // ---------------------------------------------------------------- item checks

  /** The checks of one item, on its product id, quantity, unit price and
      description; `position` is the item's 1-based place. */
  function CheckItemFields(pid: Option<Value>, qty: Option<Value>, price: Option<Value>, desc: Option<Value>,
                           position: nat): Option<ApiError>
  {
    if !IsSet(pid) || !ValidateNumeric(pid.value, Some(100), None) then Some(InvalidProductId(position))
    else if !IsSet(qty) || !ValidateNumeric(qty.value, Some(1), None) then Some(InvalidQuantity(position))
    else if !IsSet(price) || !ValidateNumeric(price.value, Some(0), None) then Some(InvalidUnitPrice(position))
    else if !IsSet(desc) || Description(desc.value) == "" then Some(DescriptionRequired(position))
    else None
  }

  /** What the four item fields must be, independently of the order of the
      checks: a product id of at least 1, a quantity of at least 0.01, a
      unit price of at least 0 and a description that is not blank. */
  predicate ItemFieldsValid(pid: Option<Value>, qty: Option<Value>, price: Option<Value>, desc: Option<Value>)
  {
    NumericValue(OrNull(pid)).Some? && NumericValue(OrNull(pid)).value >= 100
    && NumericValue(OrNull(qty)).Some? && NumericValue(OrNull(qty)).value >= 1
    && NumericValue(OrNull(price)).Some? && NumericValue(OrNull(price)).value >= 0
    && IsSet(desc) && Description(desc.value) != ""
  }

  lemma CheckItemFieldsMeaning(pid: Option<Value>, qty: Option<Value>, price: Option<Value>, desc: Option<Value>,
                               position: nat)
    ensures CheckItemFields(pid, qty, price, desc, position).None? <==> ItemFieldsValid(pid, qty, price, desc)
    ensures CheckItemFields(pid, qty, price, desc, position).Some? ==>
              CheckItemFields(pid, qty, price, desc, position).value.ForItem()
              && CheckItemFields(pid, qty, price, desc, position).value.item == position
  {
    assert NumericValue(Null).None?;
  }

  function ItemError(item: Value, position: nat): Option<ApiError>
  {
    CheckItemFields(Field(item, "product_id"), Field(item, "quantity"), Field(item, "unit_price"),
                    Field(item, "description"), position)
  }

  predicate ItemValid(item: Value)
  {
    ItemFieldsValid(Field(item, "product_id"), Field(item, "quantity"), Field(item, "unit_price"),
                    Field(item, "description"))
  }

  /** The item checks pass exactly on a valid item, and a failing one names
      the item's position. */
  lemma ItemErrorNone(item: Value, position: nat)
    ensures ItemError(item, position).None? <==> ItemValid(item)
    ensures ItemError(item, position).Some? ==>
              ItemError(item, position).value.ForItem() && ItemError(item, position).value.item == position
  {
    CheckItemFieldsMeaning(Field(item, "product_id"), Field(item, "quantity"), Field(item, "unit_price"),
                           Field(item, "description"), position);
  }

  /** The first error of a list of check outcomes. */
  function FirstError(errs: seq<Option<ApiError>>): Option<ApiError>
  {
    if errs == [] then None
    else if errs[0].Some? then errs[0]
    else FirstError(errs[1..])
  }

  /** No first error exactly when every check passes; otherwise it is the
      outcome of a failing check before which all passed. */
  lemma {:induction false} FirstErrorMeaning(errs: seq<Option<ApiError>>)
    ensures FirstError(errs).None? <==> forall j :: 0 <= j < |errs| ==> errs[j].None?
    ensures FirstError(errs).Some? ==>
              exists j :: 0 <= j < |errs| && FirstError(errs) == errs[j]
                          && forall i :: 0 <= i < j ==> errs[i].None?
  {
    if errs != [] && errs[0].None? {
      var rest := errs[1..];
      FirstErrorMeaning(rest);
      assert forall j :: 0 <= j < |rest| ==> rest[j] == errs[j + 1];
      if FirstError(rest).Some? {
        var j :| 0 <= j < |rest| && FirstError(rest) == rest[j] && forall i :: 0 <= i < j ==> rest[i].None?;
        assert FirstError(errs) == errs[j + 1];
        assert forall i :: 0 < i < j + 1 ==> errs[i] == rest[i - 1];
      } else {
        assert forall j :: 0 < j < |errs| ==> errs[j] == rest[j - 1];
      }
    }
  }

  /** The outcome of each item's checks, in order. */
  function ItemErrors(items: seq<Value>): seq<Option<ApiError>>
  {
    seq(|items|, j requires 0 <= j < |items| => ItemError(items[j], j + 1))
  }

  /** The error of the first failing item, as the `foreach` with its early
      exits reports it. */
  function FirstItemError(items: seq<Value>): Option<ApiError>
  {
    FirstError(ItemErrors(items))
  }

  /** Each item's outcome is None exactly on a valid item. */
  lemma ItemErrorsValid(items: seq<Value>)
    ensures forall j :: 0 <= j < |items| ==> (ItemErrors(items)[j].None? <==> ItemValid(items[j]))
  {
    forall j | 0 <= j < |items|
      ensures ItemErrors(items)[j].None? <==> ItemValid(items[j])
    {
      assert ItemErrors(items)[j] == ItemError(items[j], j + 1);
      ItemErrorNone(items[j], j + 1);
    }
  }

  /** No item error exactly when every item is valid. */
  lemma FirstItemErrorNone(items: seq<Value>)
    ensures FirstItemError(items).None? <==> forall j :: 0 <= j < |items| ==> ItemValid(items[j])
  {
    FirstErrorMeaning(ItemErrors(items));
    ItemErrorsValid(items);
  }

  lemma PassedAreValid(items: seq<Value>, j: nat)
    requires j <= |items| && forall i :: 0 <= i < j ==> ItemErrors(items)[i].None?
    ensures forall i :: 0 <= i < j ==> ItemValid(items[i])
  {
    ItemErrorsValid(items);
  }

  /** A failing item's checks name its 1-based position. */
  lemma FailingItemPosition(items: seq<Value>, j: nat)
    requires j < |items| && ItemErrors(items)[j].Some?
    ensures ItemErrors(items)[j].value.ForItem() && ItemErrors(items)[j].value.item == j + 1
  {
    var e := ItemError(items[j], j + 1);
    assert ItemErrors(items)[j] == e;
    ItemErrorNone(items[j], j + 1);
    assert e.Some?;
  }

  /** A failing item is invalid. */
  lemma FailingItem(items: seq<Value>, j: nat)
    requires j < |items| && ItemErrors(items)[j].Some?
    ensures !ItemValid(items[j])
  {
    var e := ItemError(items[j], j + 1);
    assert ItemErrors(items)[j] == e;
    ItemErrorNone(items[j], j + 1);
    assert e.Some?;
  }

  /** The first item error is the outcome of the item at the position it
      names, and every item before it passed its checks. */
  lemma FirstItemErrorPosition(items: seq<Value>)
    ensures FirstItemError(items).Some? ==>
              FirstItemError(items).value.ForItem() &&
              var p := FirstItemError(items).value.item;
              1 <= p <= |items| && FirstItemError(items) == ItemErrors(items)[p - 1]
              && forall i :: 0 <= i < p - 1 ==> ItemErrors(items)[i].None?
  {
    var errs := ItemErrors(items);
    FirstErrorMeaning(errs);
    if FirstError(errs).Some? {
      var j :| 0 <= j < |errs| && FirstError(errs) == errs[j] && forall i :: 0 <= i < j ==> errs[i].None?;
      FailingItemPosition(items, j);
      assert FirstItemError(items).value.item - 1 == j;
    }
  }

  /** An item error names the 1-based position of the first invalid item
      and is that item's own error. */
  lemma FirstItemErrorFirst(items: seq<Value>)
    ensures FirstItemError(items).Some? ==>
              FirstItemError(items).value.ForItem() &&
              var p := FirstItemError(items).value.item;
              1 <= p <= |items| && FirstItemError(items) == ItemErrors(items)[p - 1]
              && !ItemValid(items[p - 1])
              && forall i :: 0 <= i < p - 1 ==> ItemValid(items[i])
  {
    FirstItemErrorPosition(items);
    if FirstItemError(items).Some? {
      var p := FirstItemError(items).value.item;
      FailingItem(items, p - 1);
      PassedAreValid(items, p - 1);
    }
  }

  /** The item `foreach` of the endpoint: stops at the first failing item. */
  method ValidateItems(items: seq<Value>) returns (err: Option<ApiError>)
    ensures err == FirstItemError(items)
  {
    ghost var errs := ItemErrors(items);
    var k := 0;
    while k < |items|
      invariant 0 <= k <= |items|
      invariant FirstError(errs[k..]) == FirstError(errs)
    {
      var e := ItemError(items[k], k + 1);
      assert errs[k..][0] == e;
      if e.Some? {
        return e;
      }
      assert errs[k..][1..] == errs[k + 1..];
      k := k + 1;
    }
    return None;
  }

  // ---------------------------------------------------------------- the request

  /** `isset($input['tax_rate']) ? floatval($input['tax_rate']) : TAX_RATE`. */
  function TaxRate(given: Option<Value>, defaultRate: int): int
  {
    if IsSet(given) then FloatVal(given.value) else defaultRate
  }

  /** The checks before the items, in the endpoint's order, on the fields
      they read: first that the customer, the date and the items are
      present, then the formats of the customer id and the dates, then the
      shape of the item list and the rate. */
  function CheckHeader(customer: Option<Value>, date: Option<Value>, due: Option<Value>, items: Option<Value>,
                       rate: int): (r: Option<ApiError>)
    ensures r.Some? ==> !r.value.ForItem()
  {
    var presence := CheckPresence(customer, date, items);
    if presence.Some? then presence
    else
      var formats := CheckFormats(customer, date, due);
      if formats.Some? then formats
      else CheckShape(items, rate)
  }

  function CheckPresence(customer: Option<Value>, date: Option<Value>, items: Option<Value>): (r: Option<ApiError>)
    ensures r.Some? ==> r.value.FieldRequired?
  {
    if IsEmpty(customer) then Some(FieldRequired("customer_id"))
    else if IsEmpty(date) then Some(FieldRequired("invoice_date"))
    else if IsEmpty(items) then Some(FieldRequired("items"))
    else None
  }

  function CheckFormats(customer: Option<Value>, date: Option<Value>, due: Option<Value>): (r: Option<ApiError>)
    ensures r.Some? ==> r.value.InvalidCustomerId? || r.value.InvalidInvoiceDate? || r.value.InvalidDueDate?
  {
    if !ValidateNumeric(OrNull(customer), Some(100), None) then Some(InvalidCustomerId)
    else if !IsDate(OrNull(date)) then Some(InvalidInvoiceDate)
    else if IsSet(due) && !IsEmpty(due) && !IsDate(due.value) then Some(InvalidDueDate)
    else None
  }

  function CheckShape(items: Option<Value>, rate: int): (r: Option<ApiError>)
    ensures r.Some? ==> r.value.NoItems? || r.value.InvalidTaxRate?
  {
    if !IsArray(OrNull(items)) || |Elements(OrNull(items))| == 0 then Some(NoItems)
    else if !ValidateNumeric(Num(rate), Some(0), Some(10000)) then Some(InvalidTaxRate)
    else None
  }

  /** What passes the checks before the items, independently of their
      order: a customer id of at least 1, a valid invoice date, a due date
      that is valid or empty, a non-empty array of items and a rate from 0
      to 100 %. */
  predicate HeaderValid(customer: Option<Value>, date: Option<Value>, due: Option<Value>, items: Option<Value>,
                        rate: int)
  {
    NumericValue(OrNull(customer)).Some? && NumericValue(OrNull(customer)).value >= 100
    && IsDate(OrNull(date))
    && (IsEmpty(due) || IsDate(due.value))
    && IsArray(OrNull(items)) && |Elements(OrNull(items))| > 0
    && 0 <= rate <= 10000
  }

  /** The customer check passes exactly on a customer id of at least 1. */
  lemma CustomerCheck(customer: Option<Value>)
    ensures (!IsEmpty(customer) && ValidateNumeric(OrNull(customer), Some(100), None))
            <==> NumericValue(OrNull(customer)).Some? && NumericValue(OrNull(customer)).value >= 100
  {
    if customer.Some? && Falsy(customer.value) {
      FalsyNumeric(customer.value);
    }
  }

  lemma DateCheck(date: Option<Value>)
    ensures (!IsEmpty(date) && IsDate(OrNull(date))) <==> IsDate(OrNull(date))
  {
    if IsDate(OrNull(date)) {
      Dates.ValidatedLength(OrNull(date).s);
      LongNotFalsy(OrNull(date));
    }
  }

  lemma ItemsCheck(items: Option<Value>)
    ensures (!IsEmpty(items) && IsArray(OrNull(items)) && |Elements(OrNull(items))| != 0)
            <==> IsArray(OrNull(items)) && |Elements(OrNull(items))| > 0
  {
  }

  lemma RateCheck(rate: int)
    ensures ValidateNumeric(Num(rate), Some(0), Some(10000)) <==> 0 <= rate <= 10000
  {
  }

  lemma CheckHeaderMeaning(customer: Option<Value>, date: Option<Value>, due: Option<Value>, items: Option<Value>,
                           rate: int)
    ensures CheckHeader(customer, date, due, items, rate).None? <==> HeaderValid(customer, date, due, items, rate)
  {
    CustomerCheck(customer);
    DateCheck(date);
    ItemsCheck(items);
    RateCheck(rate);
  }

  /** All checks in the endpoint's order; on success, the tax rate to use. */
  function CheckFields(customer: Option<Value>, date: Option<Value>, due: Option<Value>, items: Option<Value>,
                       rate: int): Result<int, ApiError>
  {
    match CheckHeader(customer, date, due, items, rate)
    case Some(e) => Err(e)
    case None =>
      match FirstItemError(Elements(OrNull(items)))
      case Some(e) => Err(e)
      case None => Ok(rate)
  }

  predicate FieldsValid(customer: Option<Value>, date: Option<Value>, due: Option<Value>, items: Option<Value>,
                        rate: int)
  {
    HeaderValid(customer, date, due, items, rate)
    && forall k :: 0 <= k < |Elements(OrNull(items))| ==> ItemValid(Elements(OrNull(items))[k])
  }

  /** A string of two characters or more is never empty. */
  lemma LongNotFalsy(v: Value)
    requires v.Str? && |v.s| >= 2
    ensures !Falsy(v)
  {
  }

  lemma CheckFieldsMeaning(customer: Option<Value>, date: Option<Value>, due: Option<Value>, items: Option<Value>,
                           rate: int)
    ensures CheckFields(customer, date, due, items, rate).Ok? <==> FieldsValid(customer, date, due, items, rate)
    ensures CheckFields(customer, date, due, items, rate).Ok? ==> CheckFields(customer, date, due, items, rate).value == rate
  {
    FirstItemErrorNone(Elements(OrNull(items)));
    CheckHeaderMeaning(customer, date, due, items, rate);
  }

  /** The checks of the request body, in the endpoint's order. */
  function CheckRequest(input: Value, defaultRate: int): Result<int, ApiError>
  {
    CheckFields(Field(input, "customer_id"), Field(input, "invoice_date"), Field(input, "due_date"),
                Field(input, "items"), TaxRate(Field(input, "tax_rate"), defaultRate))
  }

  predicate ValidRequest(input: Value, defaultRate: int)
  {
    FieldsValid(Field(input, "customer_id"), Field(input, "invoice_date"), Field(input, "due_date"),
                Field(input, "items"), TaxRate(Field(input, "tax_rate"), defaultRate))
  }

  /** A request passes exactly when it is valid, and then the rate is the
      one given, or the default. */
  lemma CheckRequestValid(input: Value, defaultRate: int)
    ensures CheckRequest(input, defaultRate).Ok? <==> ValidRequest(input, defaultRate)
    ensures CheckRequest(input, defaultRate).Ok? ==>
              CheckRequest(input, defaultRate).value == TaxRate(Field(input, "tax_rate"), defaultRate)
  {
    CheckFieldsMeaning(Field(input, "customer_id"), Field(input, "invoice_date"), Field(input, "due_date"),
                       Field(input, "items"), TaxRate(Field(input, "tax_rate"), defaultRate));
  }

  /** A missing customer, date or item list is reported first, by name,
      and an empty item list counts as missing. */
  lemma MissingFieldNamed(customer: Option<Value>, date: Option<Value>, due: Option<Value>, items: Option<Value>,
                          rate: int)
    requires IsEmpty(customer) || IsEmpty(date) || items.None? || items == Some(List([]))
    ensures CheckFields(customer, date, due, items, rate)
            == Err(FieldRequired(if IsEmpty(customer) then "customer_id"
                                 else if IsEmpty(date) then "invoice_date" else "items"))
  {
  }

  /** The error of an invalid item names its 1-based position, and comes
      only when every field before the items passed. */
  lemma ItemErrorPosition(customer: Option<Value>, date: Option<Value>, due: Option<Value>, items: Option<Value>,
                          rate: int)
    requires var r := CheckFields(customer, date, due, items, rate); r.Err? && r.error.ForItem()
    ensures HeaderValid(customer, date, due, items, rate)
    ensures var elements := Elements(OrNull(items));
            var p := CheckFields(customer, date, due, items, rate).error.item;
            1 <= p <= |elements| && !ItemValid(elements[p - 1])
            && (forall i :: 0 <= i < p - 1 ==> ItemValid(elements[i]))
  {
    CheckHeaderMeaning(customer, date, due, items, rate);
    var elements := Elements(OrNull(items));
    FirstItemErrorFirst(elements);
  }

  /** The request checks as the endpoint runs them, item loop included. */
  method ValidateRequest(input: Value, defaultRate: int) returns (r: Result<int, ApiError>)
    ensures r == CheckRequest(input, defaultRate)
  {
    var customer := Field(input, "customer_id");
    var date := Field(input, "invoice_date");
    var items := Field(input, "items");
    var due := Field(input, "due_date");
    if IsEmpty(customer) {
      return Err(FieldRequired("customer_id"));
    }
    if IsEmpty(date) {
      return Err(FieldRequired("invoice_date"));
    }
    if IsEmpty(items) {
      return Err(FieldRequired("items"));
    }
    if !ValidateNumeric(customer.value, Some(100), None) {
      return Err(InvalidCustomerId);
    }
    if !IsDate(date.value) {
      return Err(InvalidInvoiceDate);
    }
    if IsSet(due) && !IsEmpty(due) && !IsDate(due.value) {
      return Err(InvalidDueDate);
    }
    if !IsArray(items.value) || |Elements(items.value)| == 0 {
      return Err(NoItems);
    }
    var rate := TaxRate(Field(input, "tax_rate"), defaultRate);
    if !ValidateNumeric(Num(rate), Some(0), Some(10000)) {
      return Err(InvalidTaxRate);
    }
    var e := ValidateItems(Elements(items.value));
    if e.Some? {
      return Err(e.value);
    }
    return Ok(rate);
  }

  // ---------------------------------------------------------------- totals

  /** `$item['quantity']` in hundredths and `$item['unit_price']` in cents,
      as the multiplication converts them. */
  function Quantity(item: Value): int
  {
    FloatVal(FieldOr(item, "quantity"))
  }

  function UnitPrice(item: Value): int
  {
    FloatVal(FieldOr(item, "unit_price"))
  }

  /** `calculateLineTotal($item['quantity'], $item['unit_price'])`. */
  function LineOf(item: Value): int
  {
    LineTotal(Quantity(item), UnitPrice(item))
  }

  /** `isset($item['taxable']) ? (bool)$item['taxable'] : true`. */
  predicate IsTaxable(item: Value)
  {
    var t := Field(item, "taxable");
    !IsSet(t) || !Falsy(t.value)
  }

  /** The line totals and the taxable flags of the items, in order. */
  function Lines(items: seq<Value>): (r: seq<int>)
    ensures |r| == |items|
  {
    seq(|items|, k requires 0 <= k < |items| => LineOf(items[k]))
  }

  function Flags(items: seq<Value>): (r: seq<bool>)
    ensures |r| == |items|
  {
    seq(|items|, k requires 0 <= k < |items| => IsTaxable(items[k]))
  }

  function Sum(xs: seq<int>): int
  {
    if xs == [] then 0 else Sum(xs[..|xs| - 1]) + xs[|xs| - 1]
  }

  /** The sum of the amounts whose flag is set. */
  function FlaggedSum(xs: seq<int>, flags: seq<bool>): int
    requires |xs| == |flags|
  {
    if xs == [] then 0
    else FlaggedSum(xs[..|xs| - 1], flags[..|xs| - 1]) + (if flags[|xs| - 1] then xs[|xs| - 1] else 0)
  }

  /** The amounts whose flag is set, in order. */
  function Selected(xs: seq<int>, flags: seq<bool>): (r: seq<int>)
    requires |xs| == |flags|
    ensures |r| <= |xs|
  {
    if xs == [] then []
    else Selected(xs[..|xs| - 1], flags[..|xs| - 1]) + (if flags[|xs| - 1] then [xs[|xs| - 1]] else [])
  }

  /** The subtotal sums all line totals; the taxable amount those of the
      taxable items. */
  function Subtotal(items: seq<Value>): int
  {
    Sum(Lines(items))
  }

  function TaxableAmount(items: seq<Value>): int
  {
    FlaggedSum(Lines(items), Flags(items))
  }

  /** The flagged sum is the sum of the selected amounts. */
  lemma {:induction false} FlaggedSumIsSumOfSelected(xs: seq<int>, flags: seq<bool>)
    requires |xs| == |flags|
    ensures FlaggedSum(xs, flags) == Sum(Selected(xs, flags))
  {
    if xs != [] {
      var n := |xs| - 1;
      FlaggedSumIsSumOfSelected(xs[..n], flags[..n]);
      var s := Selected(xs[..n], flags[..n]);
      if flags[n] {
        var t := s + [xs[n]];
        assert t[..|t| - 1] == s;
      } else {
        assert Selected(xs, flags) == s + [] == s;
      }
    }
  }

  /** With no negative amount, the flagged sum lies between 0 and the sum. */
  lemma {:induction false} FlaggedSumWithin(xs: seq<int>, flags: seq<bool>)
    requires |xs| == |flags|
    requires forall k :: 0 <= k < |xs| ==> xs[k] >= 0
    ensures 0 <= FlaggedSum(xs, flags) <= Sum(xs)
  {
    if xs != [] {
      FlaggedSumWithin(xs[..|xs| - 1], flags[..|xs| - 1]);
    }
  }

  lemma {:induction false} NoFlagNoSum(xs: seq<int>, flags: seq<bool>)
    requires |xs| == |flags|
    requires forall k :: 0 <= k < |flags| ==> !flags[k]
    ensures FlaggedSum(xs, flags) == 0
  {
    if xs != [] {
      NoFlagNoSum(xs[..|xs| - 1], flags[..|xs| - 1]);
    }
  }

  lemma {:induction false} AllFlagsWholeSum(xs: seq<int>, flags: seq<bool>)
    requires |xs| == |flags|
    requires forall k :: 0 <= k < |flags| ==> flags[k]
    ensures FlaggedSum(xs, flags) == Sum(xs)
  {
    if xs != [] {
      AllFlagsWholeSum(xs[..|xs| - 1], flags[..|xs| - 1]);
    }
  }

  /** The taxable amount is the sum of the taxable lines alone. */
  lemma TaxableIsSumOfTaxableLines(items: seq<Value>)
    ensures TaxableAmount(items) == Sum(Selected(Lines(items), Flags(items)))
  {
    FlaggedSumIsSumOfSelected(Lines(items), Flags(items));
  }

  /** Valid items have non-negative line totals, so the taxable amount lies
      between 0 and the subtotal. */
  lemma TaxableWithinSubtotal(items: seq<Value>)
    requires forall k :: 0 <= k < |items| ==> ItemValid(items[k])
    ensures 0 <= TaxableAmount(items) <= Subtotal(items)
  {
    var xs := Lines(items);
    forall k | 0 <= k < |items|
      ensures xs[k] >= 0
    {
      var f := items[k];
      FloatValNumeric(FieldOr(f, "quantity"));
      FloatValNumeric(FieldOr(f, "unit_price"));
      LineTotalNonNegative(Quantity(f), UnitPrice(f));
    }
    FlaggedSumWithin(xs, Flags(items));
  }

  /** Without a taxable item nothing is taxed. */
  lemma NothingTaxable(items: seq<Value>, rate: int)
    requires forall k :: 0 <= k < |items| ==> !IsTaxable(items[k])
    ensures TaxableAmount(items) == 0 && Tax(TaxableAmount(items), rate) == 0
  {
    NoFlagNoSum(Lines(items), Flags(items));
    TaxOfZero(0, rate);
  }

  /** When every item is taxable, the whole subtotal is taxed. */
  lemma EverythingTaxable(items: seq<Value>)
    requires forall k :: 0 <= k < |items| ==> IsTaxable(items[k])
    ensures TaxableAmount(items) == Subtotal(items)
  {
    AllFlagsWholeSum(Lines(items), Flags(items));
  }

  /** One more item adds its line total to the subtotal, and to the
      taxable amount when it is taxable. */
  lemma TotalsStep(items: seq<Value>, k: nat)
    requires k < |items|
    ensures Sum(Lines(items)[..k + 1]) == Sum(Lines(items)[..k]) + LineOf(items[k])
    ensures FlaggedSum(Lines(items)[..k + 1], Flags(items)[..k + 1])
            == FlaggedSum(Lines(items)[..k], Flags(items)[..k]) + (if IsTaxable(items[k]) then LineOf(items[k]) else 0)
  {
    var xs, flags := Lines(items), Flags(items);
    assert xs[k] == LineOf(items[k]) && flags[k] == IsTaxable(items[k]);
    assert xs[..k + 1][..k] == xs[..k] && flags[..k + 1][..k] == flags[..k];
  }

  /** The accumulator loop of the endpoint. */
  method ComputeTotals(items: seq<Value>) returns (subtotal: int, taxableAmount: int)
    ensures subtotal == Subtotal(items) && taxableAmount == TaxableAmount(items)
  {
    subtotal, taxableAmount := 0, 0;
    var k := 0;
    while k < |items|
      invariant 0 <= k <= |items|
      invariant subtotal == Sum(Lines(items)[..k]) && taxableAmount == FlaggedSum(Lines(items)[..k], Flags(items)[..k])
    {
      var lineTotal := LineOf(items[k]);
      TotalsStep(items, k);
      subtotal := subtotal + lineTotal;
      if IsTaxable(items[k]) {
        taxableAmount := taxableAmount + lineTotal;
      }
      k := k + 1;
    }
    assert Lines(items)[..k] == Lines(items) && Flags(items)[..k] == Flags(items);
  }

  // ---------------------------------------------------------------- the tested scenarios

  /** An item as the tests send it. */
  function TestItem(quantity: int, unitPrice: int, taxable: bool): Value
  {
    Assoc([("product_id", Num(100)), ("description", Str("Item")), ("quantity", Num(quantity)),
           ("unit_price", Num(unitPrice)), ("taxable", Bool(taxable))])
  }

  lemma TestItemFields(quantity: int, unitPrice: int, taxable: bool)
    ensures LineOf(TestItem(quantity, unitPrice, taxable)) == LineTotal(quantity, unitPrice)
    ensures IsTaxable(TestItem(quantity, unitPrice, taxable)) == taxable
  {
    var f := TestItem(quantity, unitPrice, taxable).fields;
    assert f[..4][..3] == f[..3] && f[..4] == f[..|f| - 1] && f[..3] == f[..4][..|f[..4]| - 1];
    assert f[4].0 == "taxable" && f[3].0 == "unit_price" && f[2].0 == "quantity";
    assert Lookup(f, "unit_price") == Some(Num(unitPrice));
    assert Lookup(f, "quantity") == Some(Num(quantity));
  }

  /** The totals of two items. */
  lemma TwoItemTotals(a: Value, b: Value)
    ensures Subtotal([a, b]) == LineOf(a) + LineOf(b)
    ensures TaxableAmount([a, b]) == (if IsTaxable(a) then LineOf(a) else 0) + (if IsTaxable(b) then LineOf(b) else 0)
  {
    var xs, flags := Lines([a, b]), Flags([a, b]);
    assert xs[..1] == [LineOf(a)] && flags[..1] == [IsTaxable(a)];
    assert xs[..1][..0] == [] && flags[..1][..0] == [];
    assert Sum(xs[..1]) == LineOf(a);
    assert FlaggedSum(xs[..1], flags[..1]) == if IsTaxable(a) then LineOf(a) else 0;
  }

  /** Two units at 100.00, taxable, and one at 50.00, not taxable, at 10 %:
      subtotal 250.00, tax 20.00, total 270.00. */
  lemma MixedTaxScenario(a: Value, b: Value)
    requires a == TestItem(200, 10000, true) && b == TestItem(100, 5000, false)
    ensures Subtotal([a, b]) == 25000 && TaxableAmount([a, b]) == 20000
            && Tax(TaxableAmount([a, b]), 1000) == 2000
            && Subtotal([a, b]) + Tax(TaxableAmount([a, b]), 1000) == 27000
  {
    TestItemFields(200, 10000, true);
    TestItemFields(100, 5000, false);
    WholeQuantityExact(2, 10000);
    WholeQuantityExact(1, 5000);
    TwoItemTotals(a, b);
    RoundDivExact(2000, 10000);
    assert 20000 * 1000 == 2000 * 10000;
  }

  /** Items at 100.00 and 50.00, neither taxable, at 10 %: subtotal 150.00,
      no tax, total equal to the subtotal. */
  lemma NonTaxableScenario(a: Value, b: Value)
    requires a == TestItem(100, 10000, false) && b == TestItem(100, 5000, false)
    ensures Subtotal([a, b]) == 15000 && Tax(TaxableAmount([a, b]), 1000) == 0
            && Subtotal([a, b]) + Tax(TaxableAmount([a, b]), 1000) == 15000
  {
    TestItemFields(100, 10000, false);
    TestItemFields(100, 5000, false);
    WholeQuantityExact(1, 10000);
    WholeQuantityExact(1, 5000);
    TwoItemTotals(a, b);
    TaxOfZero(0, 1000);
  }
}
