/**
 * The database behind the endpoints, as the PDO calls see it: three
 * tables the endpoints write, a read-only catalog, auto-increment
 * counters, the constraints the schema enforces (unique invoice numbers,
 * foreign keys, unique configuration keys) and one transaction at a time
 * whose rollback restores the tables as they were at `beginTransaction`.
 *
 * A statement that violates a constraint fails and changes nothing; the
 * caller sees the failure as an exception. Auto-increment counters are
 * not rolled back, as in InnoDB.
 */
module Store {
  import opened Php
  import opened Schema

  /** A database failure other than a constraint violation (a lost
      connection, a full disk): the step of a transaction at which the
      next statement throws, if any. */
  datatype Fault = NoFault | FailAt(step: nat)

  predicate Hits(fault: Fault, step: nat)
  {
    fault.FailAt? && fault.step == step
  }

  /** The schema's constraints on one state of the tables. */
  predicate TablesValid(customers: seq<Customer>, products: seq<Product>,
                        invoices: seq<InvoiceRow>, items: seq<ItemRow>, config: seq<ConfigRow>,
                        nextInvoiceId: nat, nextItemId: nat)
  {
    (forall i, j :: 0 <= i < j < |invoices| ==> invoices[i].id < invoices[j].id)
    && (forall i :: 0 <= i < |invoices| ==> invoices[i].id < nextInvoiceId)
    && (forall i, j :: 0 <= i < j < |invoices| ==> invoices[i].number != invoices[j].number)
    && (forall i :: 0 <= i < |invoices| ==> HasCustomer(customers, invoices[i].customerId))
    && (forall i, j :: 0 <= i < j < |items| ==> items[i].id < items[j].id)
    && (forall i :: 0 <= i < |items| ==> items[i].id < nextItemId)
    && (forall i :: 0 <= i < |items| ==> HasInvoice(invoices, items[i].invoiceId))
    && (forall i :: 0 <= i < |items| ==> HasProduct(products, items[i].productId))
    && DistinctKeys(config)
  }

  /** The catalog's primary keys. */
  predicate CatalogValid(customers: seq<Customer>, products: seq<Product>)
  {
    (forall i, j :: 0 <= i < j < |customers| ==> customers[i].id != customers[j].id)
    && (forall i, j :: 0 <= i < j < |products| ==> products[i].id != products[j].id)
  }

  predicate DistinctKeys(config: seq<ConfigRow>)
  {
    forall i, j :: 0 <= i < j < |config| ==> config[i].key != config[j].key
  }

  /** `INSERT ... ON DUPLICATE KEY UPDATE`: the row with that key gets the
      new value in place, or a new row is added at the end. */
  function UpsertRows(config: seq<ConfigRow>, key: string, value: Value): seq<ConfigRow>
    requires DistinctKeys(config)
  {
    if config == [] then [ConfigRow(key, value)]
    else if config[0].key == key then [ConfigRow(key, value)] + config[1..]
    else [config[0]] + UpsertRows(config[1..], key, value)
  }

  /** The upsert changes the row with the key and no other, or appends a
      row when none has the key. */
  lemma {:induction false} UpsertRowsShape(config: seq<ConfigRow>, key: string, value: Value)
    requires DistinctKeys(config)
    ensures var r := UpsertRows(config, key, value);
            ((exists i :: 0 <= i < |config| && config[i].key == key) ==> |r| == |config|)
            && ((forall i :: 0 <= i < |config| ==> config[i].key != key) ==> r == config + [ConfigRow(key, value)])
            && (forall i :: 0 <= i < |config| && config[i].key != key ==> r[i] == config[i])
            && (forall i :: 0 <= i < |config| && config[i].key == key ==> r[i] == ConfigRow(key, value))
  {
    if config != [] && config[0].key != key {
      var rest := config[1..];
      UpsertRowsShape(rest, key, value);
      var r := UpsertRows(config, key, value);
      assert r == [config[0]] + UpsertRows(rest, key, value);
      assert forall i :: 1 <= i < |config| ==> config[i] == rest[i - 1];
      if exists i :: 0 <= i < |config| && config[i].key == key {
        var i :| 0 <= i < |config| && config[i].key == key;
        assert rest[i - 1].key == key;
      }
    }
  }

  /** Upserting keeps the keys distinct. */
  lemma UpsertKeepsKeysDistinct(config: seq<ConfigRow>, key: string, value: Value)
    requires DistinctKeys(config)
    ensures DistinctKeys(UpsertRows(config, key, value))
  {
    var r := UpsertRows(config, key, value);
    UpsertRowsShape(config, key, value);
    if forall i :: 0 <= i < |config| ==> config[i].key != key {
      assert r == config + [ConfigRow(key, value)];
    } else {
      assert |r| == |config|;
      forall i, j | 0 <= i < j < |r|
        ensures r[i].key != r[j].key
      {
        if config[i].key == key {
          assert r[j] == config[j];
        } else if config[j].key == key {
          assert r[i] == config[i];
        } else {
          assert r[i] == config[i] && r[j] == config[j];
        }
      }
    }
  }

  class Database {
    const customers: seq<Customer>
    const products: seq<Product>
    var invoices: seq<InvoiceRow>
    var items: seq<ItemRow>
    var config: seq<ConfigRow>
    var nextInvoiceId: nat
    var nextItemId: nat
    var inTransaction: bool
    /** The tables as they were at `beginTransaction`. */
    var savedInvoices: seq<InvoiceRow>
    var savedItems: seq<ItemRow>
    var savedConfig: seq<ConfigRow>

    predicate Valid()
      reads this
    {
      CatalogValid(customers, products)
      && TablesValid(customers, products, invoices, items, config, nextInvoiceId, nextItemId)
      && (inTransaction ==>
            TablesValid(customers, products, savedInvoices, savedItems, savedConfig, nextInvoiceId, nextItemId))
    }

    /** An empty store over a fixed catalog. */
    constructor (customers: seq<Customer>, products: seq<Product>)
      requires CatalogValid(customers, products)
      ensures Valid() && !inTransaction
      ensures this.customers == customers && this.products == products
      ensures invoices == [] && items == [] && config == []
    {
      this.customers := customers;
      this.products := products;
      invoices, items, config := [], [], [];
      nextInvoiceId, nextItemId := 1, 1;
      inTransaction := false;
      savedInvoices, savedItems, savedConfig := [], [], [];
    }

    /** `$db->beginTransaction()`: remembers the tables. */
    method BeginTransaction()
      requires Valid() && !inTransaction
      modifies this
      ensures Valid() && inTransaction
      ensures savedInvoices == invoices && savedItems == items && savedConfig == config
      ensures invoices == old(invoices) && items == old(items) && config == old(config)
      ensures nextInvoiceId == old(nextInvoiceId) && nextItemId == old(nextItemId)
    {
      savedInvoices, savedItems, savedConfig := invoices, items, config;
      inTransaction := true;
    }

    /** `$db->commit()`: keeps the tables as they are. */
    method Commit()
      requires Valid() && inTransaction
      modifies this
      ensures Valid() && !inTransaction
      ensures invoices == old(invoices) && items == old(items) && config == old(config)
      ensures nextInvoiceId == old(nextInvoiceId) && nextItemId == old(nextItemId)
    {
      inTransaction := false;
    }

    /** `$db->rollBack()`: the tables return to their state at
        `beginTransaction`; the counters keep their values. */
    method RollBack()
      requires Valid() && inTransaction
      modifies this
      ensures Valid() && !inTransaction
      ensures invoices == old(savedInvoices) && items == old(savedItems) && config == old(savedConfig)
      ensures nextInvoiceId == old(nextInvoiceId) && nextItemId == old(nextItemId)
    {
      invoices, items, config := savedInvoices, savedItems, savedConfig;
      inTransaction := false;
    }

    /** `INSERT INTO invoices`: the row gets the next id; a duplicate
        invoice number or an unknown customer fails and changes nothing. */
    method InsertInvoice(row: InvoiceRow) returns (ok: bool, id: nat)
      requires Valid()
      modifies this
      ensures Valid()
      ensures ok <==> !HasNumber(old(invoices), row.number) && HasCustomer(customers, row.customerId)
      ensures ok ==> id == old(nextInvoiceId) && invoices == old(invoices) + [row.(id := id)]
                     && nextInvoiceId == id + 1
      ensures !ok ==> invoices == old(invoices) && nextInvoiceId == old(nextInvoiceId)
      ensures items == old(items) && config == old(config) && nextItemId == old(nextItemId)
      ensures inTransaction == old(inTransaction)
      ensures savedInvoices == old(savedInvoices) && savedItems == old(savedItems) && savedConfig == old(savedConfig)
    {
      if HasNumber(invoices, row.number) || !HasCustomer(customers, row.customerId) {
        return false, 0;
      }
      id := nextInvoiceId;
      var before := invoices;
      invoices := invoices + [row.(id := id)];
      nextInvoiceId := nextInvoiceId + 1;
      ok := true;
      AppendInvoiceValid(before, row.(id := id));
    }

    lemma AppendInvoiceValid(before: seq<InvoiceRow>, row: InvoiceRow)
      requires TablesValid(customers, products, before, items, config, row.id, nextItemId)
      requires !HasNumber(before, row.number) && HasCustomer(customers, row.customerId)
      ensures TablesValid(customers, products, before + [row], items, config, row.id + 1, nextItemId)
    {
      var after := before + [row];
      forall i | 0 <= i < |items|
        ensures HasInvoice(after, items[i].invoiceId)
      {
        var k :| 0 <= k < |before| && before[k].id == items[i].invoiceId;
        assert after[k] == before[k];
      }
    }

    /** `INSERT INTO invoice_items`: the row gets the next id; an unknown
        invoice or product fails and changes nothing. */
    method InsertItem(row: ItemRow) returns (ok: bool, id: nat)
      requires Valid()
      modifies this
      ensures Valid()
      ensures ok <==> HasInvoice(old(invoices), row.invoiceId) && HasProduct(products, row.productId)
      ensures ok ==> id == old(nextItemId) && items == old(items) + [row.(id := id)]
                     && nextItemId == id + 1
      ensures !ok ==> items == old(items) && nextItemId == old(nextItemId)
      ensures invoices == old(invoices) && config == old(config) && nextInvoiceId == old(nextInvoiceId)
      ensures inTransaction == old(inTransaction)
      ensures savedInvoices == old(savedInvoices) && savedItems == old(savedItems) && savedConfig == old(savedConfig)
    {
      if !HasInvoice(invoices, row.invoiceId) || !HasProduct(products, row.productId) {
        return false, 0;
      }
      id := nextItemId;
      items := items + [row.(id := id)];
      nextItemId := nextItemId + 1;
      ok := true;
    }

    /** `INSERT INTO configuration ... ON DUPLICATE KEY UPDATE`. */
    method UpsertConfig(key: string, value: Value)
      requires Valid()
      modifies this
      ensures Valid()
      ensures config == UpsertRows(old(config), key, value)
      ensures invoices == old(invoices) && items == old(items)
      ensures nextInvoiceId == old(nextInvoiceId) && nextItemId == old(nextItemId)
      ensures inTransaction == old(inTransaction)
      ensures savedInvoices == old(savedInvoices) && savedItems == old(savedItems) && savedConfig == old(savedConfig)
    {
      UpsertKeepsKeysDistinct(config, key, value);
      config := UpsertRows(config, key, value);
    }
  }
}
