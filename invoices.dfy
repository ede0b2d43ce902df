/**
 * The invoices endpoint, api/invoices.php.
 *
 * POST checks the request, then opens a transaction. Inside it, the
 * endpoint numbers the invoice, computes the totals, and inserts one
 * header row and one row per item. Any failure inside the transaction is
 * rolled back and reported as a database error. GET returns a header with
 * its customer and its lines ordered by `sort_order`.
 *
 * Database failures other than constraint violations (a lost connection, a
 * full disk) are modelled by a `Fault`: the step at which the next statement
 * throws.
 */
module Invoices {
  import opened Wrappers
  import opened Php
  import opened Money
  import opened Schema
  import opened Store
  import opened InvoiceRequest
  import Numbering

  // A `Fault` of POST names the statement of the transaction that throws:
  // step 0 is the numbering query, step 1 the header insert, step 2 + k
  // the insert of item k, and step n + 2 the commit of n items.

  /** No statement of a transaction over n items throws. */
  predicate Completes(fault: Fault, n: nat)
  {
    !(fault.FailAt? && fault.step <= n + 2)
  }

  /** The body of a successful create. */
  datatype Created = Created(invoiceId: nat, number: string, subtotal: int, taxRate: int,
                             taxAmount: int, totalAmount: int)

  /** An integer column given a request value: a numeric value rounded to
      a whole number. */
  function IntColumn(v: Value): int
  {
    match NumericValue(v)
    case Some(h) => RoundDiv(h, 100)
    case None => 0
  }

  /** `$v ?? $default`. */
  function OrDefault(v: Option<Value>, default: Value): Value
  {
    if IsSet(v) then v.value else default
  }

  /** The header the endpoint inserts, before the store gives it an id:
      the request's customer and dates, the totals over its items, and the
      notes and status given or their defaults. */
  function Header(input: Value, rate: int, number: string): (h: InvoiceRow)
  {
    var items := Elements(FieldOr(input, "items"));
    var subtotal := Subtotal(items);
    var tax := Tax(TaxableAmount(items), rate);
    InvoiceRow(0, number, IntColumn(FieldOr(input, "customer_id")), FieldOr(input, "invoice_date"),
               OrDefault(Field(input, "due_date"), Null), subtotal, rate, tax, subtotal + tax,
               OrDefault(Field(input, "notes"), Str("")), OrDefault(Field(input, "status"), Str("draft")))
  }

  /** `$item['product_id']` as the column stores it. */
  function ProductIdOf(item: Value): int
  {
    IntColumn(FieldOr(item, "product_id"))
  }

  /** The columns the endpoint computes for one item. */
  datatype Line = Line(productId: int, description: string, quantity: int, unitPrice: int,
                       lineTotal: int, taxable: bool)

  /** The parameters of the line insert for an item. */
  function PrepareLine(item: Value): Line
  {
    Line(ProductIdOf(item), Description(FieldOr(item, "description")), Quantity(item), UnitPrice(item),
         LineOf(item), IsTaxable(item))
  }

  function PrepareLines(items: seq<Value>): (r: seq<Line>)
    ensures |r| == |items|
    ensures forall k :: 0 <= k < |r| ==> r[k] == PrepareLine(items[k])
  {
    seq(|items|, k requires 0 <= k < |items| => PrepareLine(items[k]))
  }

  /** The rows the endpoint inserts for the lines of an invoice, in input
      order, numbered 1, 2, ... by `sort_order`. */
  function LineRows(lines: seq<Line>, invoiceId: nat): (r: seq<ItemRow>)
    ensures |r| == |lines|
    ensures forall k :: 0 <= k < |r| ==> r[k].invoiceId == invoiceId && r[k].sortOrder == k + 1
                                         && r[k].productId == lines[k].productId
  {
    seq(|lines|, k requires 0 <= k < |lines| =>
          var l := lines[k];
          ItemRow(0, invoiceId, l.productId, l.description, l.quantity, l.unitPrice, l.lineTotal, l.taxable, k + 1))
  }

  /** Rows as the store numbers them, from firstId on. */
  function Numbered(rows: seq<ItemRow>, firstId: nat): (r: seq<ItemRow>)
    ensures |r| == |rows|
    ensures forall k :: 0 <= k < |r| ==> r[k] == rows[k].(id := firstId + k)
  {
    seq(|rows|, k requires 0 <= k < |rows| => rows[k].(id := firstId + k))
  }

  /** Numbering one more row appends it with the next id. */
  lemma NumberedStep(rows: seq<ItemRow>, firstId: nat, k: nat)
    requires k < |rows|
    ensures Numbered(rows[..k + 1], firstId) == Numbered(rows[..k], firstId) + [rows[k].(id := firstId + k)]
  {
    assert rows[..k + 1][..k] == rows[..k];
  }

  lemma AppendStep(a: seq<ItemRow>, b: seq<ItemRow>, x: ItemRow)
    ensures (a + b) + [x] == a + (b + [x])
  {
  }

  /** The constraints a create can break: a number already issued, a
      customer or a product that does not exist. */
  predicate Insertable(invoices: seq<InvoiceRow>, customers: seq<Customer>, products: seq<Product>,
                       header: InvoiceRow, lines: seq<Line>)
  {
    !HasNumber(invoices, header.number) && HasCustomer(customers, header.customerId)
    && forall k :: 0 <= k < |lines| ==> HasProduct(products, lines[k].productId)
  }

  /** None of the first n line inserts throws. */
  predicate NoItemFault(fault: Fault, n: nat)
  {
    !(fault.FailAt? && 2 <= fault.step < n + 2)
  }

  /** The first n line inserts neither throw nor break a foreign key. */
  predicate Accepted(products: seq<Product>, rows: seq<ItemRow>, fault: Fault, n: nat)
    requires n <= |rows|
  {
    NoItemFault(fault, n) && forall k :: 0 <= k < n ==> HasProduct(products, rows[k].productId)
  }

  lemma AcceptedNext(products: seq<Product>, rows: seq<ItemRow>, fault: Fault, k: nat)
    requires k < |rows| && Accepted(products, rows, fault, k)
    requires !Hits(fault, k + 2) && HasProduct(products, rows[k].productId)
    ensures Accepted(products, rows, fault, k + 1)
  {
  }

  lemma AcceptedStops(products: seq<Product>, rows: seq<ItemRow>, fault: Fault, k: nat)
    requires k < |rows| && (Hits(fault, k + 2) || !HasProduct(products, rows[k].productId))
    ensures !Accepted(products, rows, fault, |rows|)
  {
  }

  /** The per-item insert loop, inside the transaction: stops at the first
      insert that fails, and otherwise appends every line. */
  method InsertLines(db: Database, rows: seq<ItemRow>, fault: Fault) returns (ok: bool)
    requires db.Valid() && db.inTransaction
    requires forall k :: 0 <= k < |rows| ==> HasInvoice(db.invoices, rows[k].invoiceId)
    modifies db
    ensures db.Valid() && db.inTransaction
    ensures db.invoices == old(db.invoices) && db.config == old(db.config)
    ensures db.savedInvoices == old(db.savedInvoices) && db.savedItems == old(db.savedItems)
    ensures db.savedConfig == old(db.savedConfig)
    ensures ok <==> Accepted(db.products, rows, fault, |rows|)
    ensures ok ==> db.items == old(db.items) + Numbered(rows, old(db.nextItemId))
  {
    ghost var firstItemId := db.nextItemId;
    var k := 0;
    while k < |rows|
      invariant 0 <= k <= |rows|
      invariant db.Valid() && db.inTransaction
      invariant db.invoices == old(db.invoices) && db.config == old(db.config)
      invariant db.savedInvoices == old(db.savedInvoices) && db.savedItems == old(db.savedItems)
      invariant db.savedConfig == old(db.savedConfig)
      invariant db.items == old(db.items) + Numbered(rows[..k], firstItemId) && db.nextItemId == firstItemId + k
      invariant Accepted(db.products, rows, fault, k)
    {
      if Hits(fault, k + 2) {
        AcceptedStops(db.products, rows, fault, k);
        return false;
      }
      var okItem, itemId := db.InsertItem(rows[k]);
      if !okItem {
        AcceptedStops(db.products, rows, fault, k);
        return false;
      }
      AcceptedNext(db.products, rows, fault, k);
      NumberedStep(rows, firstItemId, k);
      AppendStep(old(db.items), Numbered(rows[..k], firstItemId), rows[k].(id := itemId));
      k := k + 1;
    }
    assert rows[..k] == rows;
    return true;
  }

  /** The line inserts of a transaction all succeed exactly when none of
      them throws and every product exists. */
  lemma AcceptedLines(products: seq<Product>, lines: seq<Line>, id: nat, fault: Fault)
    ensures Accepted(products, LineRows(lines, id), fault, |lines|) <==>
              NoItemFault(fault, |lines|) && forall k :: 0 <= k < |lines| ==> HasProduct(products, lines[k].productId)
  {
  }

  /** The header the endpoint builds, its totals computed by the item loop. */
  method BuildHeader(input: Value, rate: int, number: string) returns (header: InvoiceRow)
    ensures header == Header(input, rate, number)
  {
    var subtotal, taxableAmount := ComputeTotals(Elements(FieldOr(input, "items")));
    var taxAmount := Tax(taxableAmount, rate);
    header := InvoiceRow(0, number, IntColumn(FieldOr(input, "customer_id")), FieldOr(input, "invoice_date"),
                         OrDefault(Field(input, "due_date"), Null), subtotal, rate, taxAmount,
                         subtotal + taxAmount, OrDefault(Field(input, "notes"), Str("")),
                         OrDefault(Field(input, "status"), Str("draft")));
  }

  /** The inserts and the commit of an open transaction: the header, then
      its lines. Any failure rolls the transaction back. */
  method WriteInvoice(db: Database, header: InvoiceRow, lines: seq<Line>, fault: Fault) returns (ok: bool, id: nat)
    requires db.Valid() && db.inTransaction
    modifies db
    ensures db.Valid() && !db.inTransaction
    ensures ok <==> !Hits(fault, 1) && NoItemFault(fault, |lines|) && !Hits(fault, |lines| + 2)
                    && Insertable(old(db.invoices), db.customers, db.products, header, lines)
    ensures !ok ==> db.invoices == old(db.savedInvoices) && db.items == old(db.savedItems)
                    && db.config == old(db.savedConfig)
    ensures ok ==> id == old(db.nextInvoiceId) && db.config == old(db.config)
                   && db.invoices == old(db.invoices) + [header.(id := id)]
                   && db.items == old(db.items) + Numbered(LineRows(lines, id), old(db.nextItemId))
  {
    if Hits(fault, 1) {
      db.RollBack();
      return false, 0;
    }
    var inserted;
    inserted, id := db.InsertInvoice(header);
    if !inserted {
      db.RollBack();
      return false, 0;
    }
    assert db.invoices[|db.invoices| - 1].id == id;
    var linesOk := InsertLines(db, LineRows(lines, id), fault);
    AcceptedLines(db.products, lines, id, fault);
    if !linesOk {
      db.RollBack();
      return false, 0;
    }
    if Hits(fault, |lines| + 2) {
      db.RollBack();
      return false, 0;
    }
    db.Commit();
    return true, id;
  }

  /** The transaction of POST, for a request that passed its checks: it
      either stores exactly one header and one line per item, in input
      order, or rolls back to the tables as they were and reports a
      database error. */
  method StoreInvoice(db: Database, input: Value, rate: int, invoicePrefix: string, year: int, fault: Fault)
    returns (r: Result<Created, ApiError>)
    requires db.Valid() && !db.inTransaction
    modifies db
    ensures db.Valid() && !db.inTransaction
    ensures db.config == old(db.config)
    ensures r.Err? ==> r.error == DatabaseError && db.invoices == old(db.invoices) && db.items == old(db.items)
    ensures var items := Elements(FieldOr(input, "items"));
            var header := Header(input, rate, Numbering.GenerateInvoiceNumber(old(db.invoices), invoicePrefix, year));
            var id := old(db.nextInvoiceId);
            (r.Ok? <==> Completes(fault, |items|) && Insertable(old(db.invoices), db.customers, db.products, header, PrepareLines(items)))
            && (r.Ok? ==>
                  r.value == Created(id, header.number, header.subtotal, rate, header.taxAmount, header.totalAmount)
                  && db.invoices == old(db.invoices) + [header.(id := id)]
                  && db.items == old(db.items) + Numbered(LineRows(PrepareLines(items), id), old(db.nextItemId)))
  {
    var items := Elements(FieldOr(input, "items"));
    db.BeginTransaction();
    if Hits(fault, 0) {
      db.RollBack();
      return Err(DatabaseError);
    }
    var number := Numbering.GenerateInvoiceNumber(db.invoices, invoicePrefix, year);
    var header := BuildHeader(input, rate, number);
    var ok, id := WriteInvoice(db, header, PrepareLines(items), fault);
    if !ok {
      return Err(DatabaseError);
    }
    return Ok(Created(id, number, header.subtotal, rate, header.taxAmount, header.totalAmount));
  }

  /** POST: the request checks, then the transaction. A request that fails
      a check changes nothing and reports that check's error. A valid one
      either stores exactly one header and one line per item, in input
      order, or rolls back to the tables as they were. */
  method CreateInvoice(db: Database, input: Value, defaultRate: int, invoicePrefix: string, year: int, fault: Fault)
    returns (r: Result<Created, ApiError>)
    requires db.Valid() && !db.inTransaction
    modifies db
    ensures db.Valid() && !db.inTransaction
    ensures r.Err? ==> db.invoices == old(db.invoices) && db.items == old(db.items)
    ensures db.config == old(db.config)
    ensures CheckRequest(input, defaultRate).Err? ==>
              r == Err(CheckRequest(input, defaultRate).error)
              && db.nextInvoiceId == old(db.nextInvoiceId) && db.nextItemId == old(db.nextItemId)
    ensures CheckRequest(input, defaultRate).Ok? ==>
              var rate := CheckRequest(input, defaultRate).value;
              var items := Elements(FieldOr(input, "items"));
              var header := Header(input, rate, Numbering.GenerateInvoiceNumber(old(db.invoices), invoicePrefix, year));
              var id := old(db.nextInvoiceId);
              (r.Ok? <==> Completes(fault, |items|) && Insertable(old(db.invoices), db.customers, db.products, header, PrepareLines(items)))
              && (r.Err? ==> r.error == DatabaseError)
              && (r.Ok? ==>
                    r.value == Created(id, header.number, header.subtotal, rate, header.taxAmount, header.totalAmount)
                    && db.invoices == old(db.invoices) + [header.(id := id)]
                    && db.items == old(db.items) + Numbered(LineRows(PrepareLines(items), id), old(db.nextItemId)))
  {
    var check := ValidateRequest(input, defaultRate);
    if check.Err? {
      return Err(check.error);
    }
    r := StoreInvoice(db, input, check.value, invoicePrefix, year, fault);
  }

  // ---------------------------------------------------------------- GET

  /** A line of the answer: the item row joined with its product. */
  datatype LineView = LineView(item: ItemRow, product: Product)

  /** The answer: the header joined with its customer, and its lines. */
  datatype InvoiceView = InvoiceView(header: InvoiceRow, customer: Customer, lines: seq<LineView>)

  /** The row with an id, the first one when several match. */
  function FindInvoice(invoices: seq<InvoiceRow>, id: int): (r: Option<InvoiceRow>)
    ensures r.None? <==> forall i :: 0 <= i < |invoices| ==> invoices[i].id != id
    ensures r.Some? ==> r.value in invoices && r.value.id == id
  {
    if invoices == [] then None
    else if invoices[0].id == id then Some(invoices[0])
    else FindInvoice(invoices[1..], id)
  }

  function FindCustomer(customers: seq<Customer>, id: int): (r: Option<Customer>)
    ensures r.None? <==> !HasCustomer(customers, id)
    ensures r.Some? ==> r.value in customers && r.value.id == id
  {
    if customers == [] then None
    else if customers[0].id == id then Some(customers[0])
    else
      var r := FindCustomer(customers[1..], id);
      assert r.None? ==> forall i :: 1 <= i < |customers| ==> customers[i].id != id by {
        if r.None? {
          forall i | 1 <= i < |customers|
            ensures customers[i].id != id
          {
            assert customers[i] == customers[1..][i - 1];
          }
        }
      }
      r
  }

  function FindProduct(products: seq<Product>, id: int): (r: Option<Product>)
    ensures r.None? <==> !HasProduct(products, id)
    ensures r.Some? ==> r.value in products && r.value.id == id
  {
    if products == [] then None
    else if products[0].id == id then Some(products[0])
    else
      var r := FindProduct(products[1..], id);
      assert r.None? ==> forall i :: 1 <= i < |products| ==> products[i].id != id by {
        if r.None? {
          forall i | 1 <= i < |products|
            ensures products[i].id != id
          {
            assert products[i] == products[1..][i - 1];
          }
        }
      }
      r
  }

  /** `invoice_items INNER JOIN products WHERE invoice_id = :id`, in table
      order: each item of the invoice whose product exists, with it. */
  function JoinLines(items: seq<ItemRow>, products: seq<Product>, invoiceId: int): seq<LineView>
  {
    if items == [] then []
    else
      var last := items[|items| - 1];
      var p := FindProduct(products, last.productId);
      JoinLines(items[..|items| - 1], products, invoiceId)
      + (if last.invoiceId == invoiceId && p.Some? then [LineView(last, p.value)] else [])
  }

  /** Every joined line is an item row of the invoice with its product. */
  lemma {:induction false} JoinSound(items: seq<ItemRow>, products: seq<Product>, invoiceId: int)
    ensures forall l :: l in JoinLines(items, products, invoiceId) ==>
              l.item in items && l.item.invoiceId == invoiceId && l.product in products && l.product.id == l.item.productId
  {
    if items != [] {
      JoinSound(items[..|items| - 1], products, invoiceId);
      assert forall x :: x in items[..|items| - 1] ==> x in items;
    }
  }

  /** Every item row of the invoice whose product exists is joined. */
  lemma {:induction false} JoinComplete(items: seq<ItemRow>, products: seq<Product>, invoiceId: int, i: nat)
    requires i < |items| && items[i].invoiceId == invoiceId && HasProduct(products, items[i].productId)
    ensures exists l :: l in JoinLines(items, products, invoiceId) && l.item == items[i]
  {
    var init := items[..|items| - 1];
    if i < |init| {
      JoinComplete(init, products, invoiceId, i);
      var l :| l in JoinLines(init, products, invoiceId) && l.item == init[i];
      assert l in JoinLines(items, products, invoiceId);
    } else {
      var p := FindProduct(products, items[i].productId);
      assert LineView(items[i], p.value) in JoinLines(items, products, invoiceId);
    }
  }

  predicate SortedByOrder(lines: seq<LineView>)
  {
    forall i, j :: 0 <= i < j < |lines| ==> lines[i].item.sortOrder <= lines[j].item.sortOrder
  }

  /** The line placed after every line of sorted whose sort order is not
      above its own. */
  function InsertByOrder(sorted: seq<LineView>, x: LineView): seq<LineView>
  {
    if sorted == [] then [x]
    else if sorted[|sorted| - 1].item.sortOrder <= x.item.sortOrder then sorted + [x]
    else InsertByOrder(sorted[..|sorted| - 1], x) + [sorted[|sorted| - 1]]
  }

  lemma {:induction false} InsertPermutes(sorted: seq<LineView>, x: LineView)
    ensures multiset(InsertByOrder(sorted, x)) == multiset(sorted) + multiset{x}
  {
    if sorted != [] {
      var init, last := sorted[..|sorted| - 1], sorted[|sorted| - 1];
      assert sorted == init + [last];
      if last.item.sortOrder > x.item.sortOrder {
        InsertPermutes(init, x);
      }
    }
  }

  lemma {:induction false} InsertSorted(sorted: seq<LineView>, x: LineView)
    requires SortedByOrder(sorted)
    ensures SortedByOrder(InsertByOrder(sorted, x))
  {
    if sorted != [] {
      var init, last := sorted[..|sorted| - 1], sorted[|sorted| - 1];
      if last.item.sortOrder > x.item.sortOrder {
        InsertSorted(init, x);
        InsertPermutes(init, x);
        var front := InsertByOrder(init, x);
        forall i | 0 <= i < |front|
          ensures front[i].item.sortOrder <= last.item.sortOrder
        {
          assert front[i] in multiset(front);
          assert front[i] in multiset(init) || front[i] == x;
        }
      }
    }
  }

  /** `ORDER BY sort_order ASC`; lines with the same order keep the order
      of the table. */
  function SortByOrder(lines: seq<LineView>): seq<LineView>
  {
    if lines == [] then []
    else InsertByOrder(SortByOrder(lines[..|lines| - 1]), lines[|lines| - 1])
  }

  /** The sort orders its lines. */
  lemma {:induction false} SortSorts(lines: seq<LineView>)
    ensures SortedByOrder(SortByOrder(lines))
  {
    if lines != [] {
      SortSorts(lines[..|lines| - 1]);
      InsertSorted(SortByOrder(lines[..|lines| - 1]), lines[|lines| - 1]);
    }
  }

  /** The sort keeps every line. */
  lemma {:induction false} SortPermutes(lines: seq<LineView>)
    ensures multiset(SortByOrder(lines)) == multiset(lines)
  {
    if lines != [] {
      var init, last := lines[..|lines| - 1], lines[|lines| - 1];
      SortPermutes(init);
      InsertPermutes(SortByOrder(init), last);
      assert SortByOrder(lines) == InsertByOrder(SortByOrder(init), last);
      assert multiset(lines) == multiset(init) + multiset{last} by {
        assert lines == init + [last];
      }
    }
  }

  /** Lines already in order are left as they are. */
  lemma {:induction false} SortKeepsSorted(lines: seq<LineView>)
    requires SortedByOrder(lines)
    ensures SortByOrder(lines) == lines
  {
    if lines != [] {
      var init := lines[..|lines| - 1];
      assert SortedByOrder(init);
      SortKeepsSorted(init);
      if init != [] {
        assert init[|init| - 1] == lines[|lines| - 2];
      }
      assert init + [lines[|lines| - 1]] == lines;
    }
  }

  /** GET: `id` is the query parameter, when given. */
  function GetInvoice(invoices: seq<InvoiceRow>, items: seq<ItemRow>, customers: seq<Customer>, products: seq<Product>,
                      id: Option<string>): Result<InvoiceView, ApiError>
  {
    if id.None? || NumericText(id.value).None? then Err(InvoiceIdRequired)
    else
      var n := IntVal(id.value);
      match FindInvoice(invoices, n)
      case None => Err(InvoiceNotFound)
      case Some(h) =>
        match FindCustomer(customers, h.customerId)
        case None => Err(InvoiceNotFound)
        case Some(c) => Ok(InvoiceView(h, c, SortByOrder(JoinLines(items, products, n))))
  }

  /** GET rejects a missing or non-numeric id, reports an unknown id (or an
      invoice whose customer is gone) as not found, and otherwise answers
      with the header of that id, its customer, and exactly the lines of
      that invoice whose product exists, ordered by `sort_order`. */
  lemma GetInvoiceMeaning(invoices: seq<InvoiceRow>, items: seq<ItemRow>, customers: seq<Customer>,
                          products: seq<Product>, id: Option<string>)
    ensures var r := GetInvoice(invoices, items, customers, products, id);
            (r == Err(InvoiceIdRequired) <==> id.None? || NumericText(id.value).None?)
            && (r == Err(InvoiceNotFound) <==>
                  id.Some? && NumericText(id.value).Some?
                  && ((forall i :: 0 <= i < |invoices| ==> invoices[i].id != IntVal(id.value))
                      || !HasCustomer(customers, FindInvoice(invoices, IntVal(id.value)).value.customerId)))
            && (r.Ok? ==>
                  var n := IntVal(id.value);
                  r.value.header in invoices && r.value.header.id == n
                  && r.value.customer in customers && r.value.customer.id == r.value.header.customerId
                  && SortedByOrder(r.value.lines)
                  && multiset(r.value.lines) == multiset(JoinLines(items, products, n))
                  && (forall l :: l in r.value.lines ==>
                        l.item in items && l.item.invoiceId == n && l.product in products
                        && l.product.id == l.item.productId)
                  && (forall i :: 0 <= i < |items| && items[i].invoiceId == n && HasProduct(products, items[i].productId)
                        ==> exists l :: l in r.value.lines && l.item == items[i]))
  {
    var r := GetInvoice(invoices, items, customers, products, id);
    if r.Ok? {
      var n := IntVal(id.value);
      var joined := JoinLines(items, products, n);
      SortSorts(joined);
      SortPermutes(joined);
      JoinSound(items, products, n);
      forall l | l in r.value.lines
        ensures l in joined
      {
        assert l in multiset(r.value.lines);
      }
      forall i | 0 <= i < |items| && items[i].invoiceId == n && HasProduct(products, items[i].productId)
        ensures exists l :: l in r.value.lines && l.item == items[i]
      {
        JoinComplete(items, products, n, i);
        var l :| l in joined && l.item == items[i];
        assert l in multiset(joined);
      }
    }
  }

  /** The joined lines of two runs of rows are those of each run. */
  lemma {:induction false} JoinAppend(a: seq<ItemRow>, b: seq<ItemRow>, products: seq<Product>, invoiceId: int)
    ensures JoinLines(a + b, products, invoiceId) == JoinLines(a, products, invoiceId) + JoinLines(b, products, invoiceId)
  {
    if b != [] {
      var init := b[..|b| - 1];
      JoinAppend(a, init, products, invoiceId);
      assert (a + b)[..|a + b| - 1] == a + init;
    } else {
      assert a + b == a;
    }
  }

  /** Rows of other invoices join to nothing. */
  lemma {:induction false} JoinNone(items: seq<ItemRow>, products: seq<Product>, invoiceId: int)
    requires forall i :: 0 <= i < |items| ==> items[i].invoiceId != invoiceId
    ensures JoinLines(items, products, invoiceId) == []
  {
    if items != [] {
      JoinNone(items[..|items| - 1], products, invoiceId);
    }
  }

  /** Rows all of one invoice whose products exist join one line each, in
      order. */
  lemma {:induction false} JoinAll(rows: seq<ItemRow>, products: seq<Product>, invoiceId: int)
    requires forall k :: 0 <= k < |rows| ==> rows[k].invoiceId == invoiceId && HasProduct(products, rows[k].productId)
    ensures var j := JoinLines(rows, products, invoiceId);
            |j| == |rows| && forall k :: 0 <= k < |rows| ==> j[k].item == rows[k]
  {
    if rows != [] {
      JoinAll(rows[..|rows| - 1], products, invoiceId);
    }
  }

  /** The header row with a new id is the one found under that id. */
  lemma FindNew(invoices: seq<InvoiceRow>, header: InvoiceRow)
    requires forall i :: 0 <= i < |invoices| ==> invoices[i].id < header.id
    ensures FindInvoice(invoices + [header], header.id) == Some(header)
  {
    var all := invoices + [header];
    assert all[|all| - 1] == header;
    assert forall x :: x in all && x.id == header.id ==> x == header by {
      forall x | x in all && x.id == header.id
        ensures x == header
      {
        var i :| 0 <= i < |all| && all[i] == x;
        if i < |invoices| {
          assert all[i] == invoices[i];
        }
      }
    }
  }

  /** Appending the lines of a new invoice to rows of other invoices: the
      join under the new id is one line per new row, in order, and it is
      already sorted when the rows are numbered 1, 2, .... */
  lemma JoinNew(items: seq<ItemRow>, rows: seq<ItemRow>, products: seq<Product>, id: nat)
    requires forall i :: 0 <= i < |items| ==> items[i].invoiceId != id
    requires forall k :: 0 <= k < |rows| ==>
               rows[k].invoiceId == id && rows[k].sortOrder == k + 1 && HasProduct(products, rows[k].productId)
    ensures var j := JoinLines(items + rows, products, id);
            |j| == |rows| && (forall k :: 0 <= k < |rows| ==> j[k].item == rows[k]) && SortByOrder(j) == j
  {
    JoinAppend(items, rows, products, id);
    JoinNone(items, products, id);
    JoinAll(rows, products, id);
    var joined := JoinLines(rows, products, id);
    assert JoinLines(items + rows, products, id) == joined;
    assert SortedByOrder(joined) by {
      forall i, j | 0 <= i < j < |joined|
        ensures joined[i].item.sortOrder <= joined[j].item.sortOrder
      {
        assert joined[i].item == rows[i] && joined[j].item == rows[j];
      }
    }
    SortKeepsSorted(joined);
  }

  /** Reading back a created invoice: GET with the new id answers with the
      new header, its customer and exactly the new lines, in input order. */
  lemma GetAfterCreate(invoices: seq<InvoiceRow>, items: seq<ItemRow>, config: seq<ConfigRow>,
                       customers: seq<Customer>, products: seq<Product>,
                       header: InvoiceRow, lines: seq<Line>, id: nat, firstItemId: nat)
    requires TablesValid(customers, products, invoices, items, config, id, firstItemId)
    requires header.id == id && HasCustomer(customers, header.customerId)
    requires forall k :: 0 <= k < |lines| ==> HasProduct(products, lines[k].productId)
    ensures var rows := Numbered(LineRows(lines, id), firstItemId);
            var r := GetInvoice(invoices + [header], items + rows, customers, products, Some(NatText(id)));
            r.Ok? && r.value.header == header && r.value.customer.id == header.customerId
            && |r.value.lines| == |rows|
            && forall k :: 0 <= k < |rows| ==> r.value.lines[k].item == rows[k]
  {
    var rows := Numbered(LineRows(lines, id), firstItemId);
    NumericNatText(id);
    IntValNatText(id);
    FindNew(invoices, header);
    forall i | 0 <= i < |items|
      ensures items[i].invoiceId != id
    {
      var j :| 0 <= j < |invoices| && invoices[j].id == items[i].invoiceId;
    }
    JoinNew(items, rows, products, id);
  }
}
