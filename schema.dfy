/**
 * The rows of the tables the endpoints read and write: the read-only
 * catalog (`customers`, `products`), the invoice header and line tables
 * (`invoices`, `invoice_items`) and the key/value `configuration` table.
 *
 * Integer columns hold `int`s, money columns cents, quantities hundredths
 * and the tax rate hundredths of a percent. Columns the endpoints store
 * from the request as given (dates, notes, status, configuration values)
 * hold the decoded request value.
 */
module Schema {
  import opened Php

  datatype Customer = Customer(
    id: int, name: string, email: string, phone: string,
    address: string, city: string, postalCode: string, country: string)

  datatype Product = Product(id: int, code: string, name: string, unit: string)

  datatype InvoiceRow = InvoiceRow(
    id: nat,
    number: string,
    customerId: int,
    invoiceDate: Value,
    dueDate: Value,
    subtotal: int,
    taxRate: int,
    taxAmount: int,
    totalAmount: int,
    notes: Value,
    status: Value)

  datatype ItemRow = ItemRow(
    id: nat,
    invoiceId: nat,
    productId: int,
    description: string,
    quantity: int,
    unitPrice: int,
    lineTotal: int,
    taxable: bool,
    sortOrder: int)

  datatype ConfigRow = ConfigRow(key: string, value: Value)

  predicate HasCustomer(customers: seq<Customer>, id: int)
  {
    exists i :: 0 <= i < |customers| && customers[i].id == id
  }

  predicate HasProduct(products: seq<Product>, id: int)
  {
    exists i :: 0 <= i < |products| && products[i].id == id
  }

  predicate HasInvoice(invoices: seq<InvoiceRow>, id: nat)
  {
    exists i :: 0 <= i < |invoices| && invoices[i].id == id
  }

  predicate HasNumber(invoices: seq<InvoiceRow>, number: string)
  {
    exists i :: 0 <= i < |invoices| && invoices[i].number == number
  }
}
