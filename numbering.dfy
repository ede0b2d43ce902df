/**
 * `generateInvoiceNumber` of includes/functions.php: the number after the
 * last one issued this year.
 *
 * The query `invoice_number LIKE '<prefix><year>-%' ORDER BY id DESC LIMIT 1`
 * becomes a search over the stored rows for the highest id whose number
 * starts with the year's prefix; the year is a parameter, since it comes
 * from the clock.
 */
module Numbering {
  import opened Wrappers
  import opened Php
  import opened Schema
  import Dates

  /** `number LIKE '<prefix>%'`, read as a case-sensitive prefix test with
      no wildcard inside the prefix. It means `prefix <= s`, but as a named
      predicate it gives the quantifiers over stored rows a term to trigger on. */
  predicate StartsWith(s: string, prefix: string)
  {
    |prefix| <= |s| && s[..|prefix|] == prefix
  }

  /** `INVOICE_PREFIX . date('Y') . '-'`. */
  function YearPrefix(invoicePrefix: string, year: int): string
  {
    invoicePrefix + Dates.YearText(year) + "-"
  }

  /** The stored row with the highest id whose number starts with prefix. */
  function LastMatching(rows: seq<InvoiceRow>, prefix: string): (r: Option<InvoiceRow>)
    ensures r.None? <==> forall i :: 0 <= i < |rows| ==> !StartsWith(rows[i].number, prefix)
    ensures r.Some? ==> r.value in rows && StartsWith(r.value.number, prefix)
    ensures r.Some? ==> forall i :: 0 <= i < |rows| && StartsWith(rows[i].number, prefix) ==> rows[i].id <= r.value.id
  {
    if rows == [] then None
    else
      var last := rows[|rows| - 1];
      var before := LastMatching(rows[..|rows| - 1], prefix);
      if !StartsWith(last.number, prefix) then before
      else if before.Some? && before.value.id >= last.id then before
      else Some(last)
  }

  /** The sequence number to issue: one more than the `intval` of the last
      matching number's suffix, or 1 when there is none. */
  function NextSequence(rows: seq<InvoiceRow>, prefix: string): int
  {
    match LastMatching(rows, prefix)
    case None => 1
    case Some(last) => IntVal(last.number[|prefix|..]) + 1
  }

  /** The prefix followed by the sequence number, zero-padded to three digits. */
  function FormatNumber(prefix: string, n: int): string
  {
    prefix + PadLeft(IntText(n), 3, '0')
  }

  /** `generateInvoiceNumber($db)`. */
  function GenerateInvoiceNumber(rows: seq<InvoiceRow>, invoicePrefix: string, year: int): string
  {
    var prefix := YearPrefix(invoicePrefix, year);
    FormatNumber(prefix, NextSequence(rows, prefix))
  }

  /** The generated number is the year's prefix and a suffix of at least
      three characters that `intval` reads back as the sequence number;
      padding never truncates, so from 1000 on the suffix is the plain
      decimal text. */
  lemma FormatNumberShape(prefix: string, n: int)
    ensures StartsWith(FormatNumber(prefix, n), prefix)
    ensures var suffix := FormatNumber(prefix, n)[|prefix|..];
            |suffix| >= 3 && IntVal(suffix) >= n && (n >= 0 ==> IntVal(suffix) == n)
    ensures n >= 1000 ==> FormatNumber(prefix, n) == prefix + NatText(n)
  {
    var s := FormatNumber(prefix, n);
    assert s[..|prefix|] == prefix && s[|prefix|..] == PadLeft(IntText(n), 3, '0');
    PaddedIntVal(n, 3);
    if n >= 1000 {
      NatTextLength(n, 3);
      assert Pow10(3) == 1000;
    }
  }

  /** The first number of a year is `<prefix><year>-001`. */
  lemma FirstOfYear(rows: seq<InvoiceRow>, invoicePrefix: string, year: int)
    requires forall i :: 0 <= i < |rows| ==> !StartsWith(rows[i].number, YearPrefix(invoicePrefix, year))
    ensures GenerateInvoiceNumber(rows, invoicePrefix, year) == YearPrefix(invoicePrefix, year) + "001"
  {
    assert NatText(1) == "1";
    assert PadLeft("1", 3, '0') == "001";
  }

  /** Otherwise the number continues from the suffix of the last matching
      row, by id. */
  lemma ContinuesFromLast(rows: seq<InvoiceRow>, invoicePrefix: string, year: int, i: int)
    requires 0 <= i < |rows|
    requires StartsWith(rows[i].number, YearPrefix(invoicePrefix, year))
    requires forall j :: 0 <= j < |rows| && StartsWith(rows[j].number, YearPrefix(invoicePrefix, year)) ==> rows[j].id <= rows[i].id
    requires forall j :: 0 <= j < |rows| && j != i ==> rows[j].id != rows[i].id
    ensures var prefix := YearPrefix(invoicePrefix, year);
            GenerateInvoiceNumber(rows, invoicePrefix, year) == FormatNumber(prefix, IntVal(rows[i].number[|prefix|..]) + 1)
  {
    var prefix := YearPrefix(invoicePrefix, year);
    var last := LastMatching(rows, prefix);
    assert last.Some?;
    var k :| 0 <= k < |rows| && rows[k] == last.value;
    assert rows[k].id == rows[i].id;
    assert k == i;
  }

  /** The numbers of a prefix rise with the id: a later row has a larger
      `intval` suffix. */
  predicate WellNumbered(rows: seq<InvoiceRow>, prefix: string)
  {
    forall i, j :: 0 <= i < |rows| && 0 <= j < |rows| && rows[i].id < rows[j].id
                   && StartsWith(rows[i].number, prefix) && StartsWith(rows[j].number, prefix)
                   ==> IntVal(rows[i].number[|prefix|..]) < IntVal(rows[j].number[|prefix|..])
  }

  predicate DistinctIds(rows: seq<InvoiceRow>)
  {
    forall i, j :: 0 <= i < j < |rows| ==> rows[i].id != rows[j].id
  }

  /** Every stored number with the prefix reads lower than the next
      sequence number. */
  lemma BelowNext(rows: seq<InvoiceRow>, prefix: string, i: int)
    requires WellNumbered(rows, prefix) && DistinctIds(rows)
    requires 0 <= i < |rows| && StartsWith(rows[i].number, prefix)
    ensures IntVal(rows[i].number[|prefix|..]) < NextSequence(rows, prefix)
  {
    var last := LastMatching(rows, prefix).value;
    var k :| 0 <= k < |rows| && rows[k] == last;
  }

  /** Sequential uniqueness: when the year's numbers rise with the id, the
      generated number is new, and storing it under a larger id keeps the
      numbers rising. */
  lemma GeneratedIsFresh(rows: seq<InvoiceRow>, invoicePrefix: string, year: int, row: InvoiceRow)
    requires var prefix := YearPrefix(invoicePrefix, year);
             WellNumbered(rows, prefix) && DistinctIds(rows)
    requires row.number == GenerateInvoiceNumber(rows, invoicePrefix, year)
    requires forall i :: 0 <= i < |rows| ==> rows[i].id < row.id
    ensures forall i :: 0 <= i < |rows| ==> rows[i].number != row.number
    ensures WellNumbered(rows + [row], YearPrefix(invoicePrefix, year))
    ensures DistinctIds(rows + [row])
  {
    var prefix := YearPrefix(invoicePrefix, year);
    var n := NextSequence(rows, prefix);
    assert row.number == FormatNumber(prefix, n);
    FormatNumberShape(prefix, n);
    forall i | 0 <= i < |rows| && StartsWith(rows[i].number, prefix)
      ensures IntVal(rows[i].number[|prefix|..]) < IntVal(row.number[|prefix|..])
    {
      BelowNext(rows, prefix, i);
    }
    DifferentSuffix(rows, prefix, row);
    AppendRising(rows, prefix, row);
    AppendDistinct(rows, row);
  }

  lemma AppendDistinct(rows: seq<InvoiceRow>, row: InvoiceRow)
    requires DistinctIds(rows)
    requires forall i :: 0 <= i < |rows| ==> rows[i].id < row.id
    ensures DistinctIds(rows + [row])
  {
  }

  /** A number above every stored suffix of its prefix is not stored. */
  lemma DifferentSuffix(rows: seq<InvoiceRow>, prefix: string, row: InvoiceRow)
    requires StartsWith(row.number, prefix)
    requires forall i :: 0 <= i < |rows| && StartsWith(rows[i].number, prefix)
                         ==> IntVal(rows[i].number[|prefix|..]) < IntVal(row.number[|prefix|..])
    ensures forall i :: 0 <= i < |rows| ==> rows[i].number != row.number
  {
  }

  /** Appending a row with a larger id and a larger suffix keeps the
      numbers rising. */
  lemma AppendRising(rows: seq<InvoiceRow>, prefix: string, row: InvoiceRow)
    requires WellNumbered(rows, prefix) && StartsWith(row.number, prefix)
    requires forall i :: 0 <= i < |rows| ==> rows[i].id < row.id
    requires forall i :: 0 <= i < |rows| && StartsWith(rows[i].number, prefix)
                         ==> IntVal(rows[i].number[|prefix|..]) < IntVal(row.number[|prefix|..])
    ensures WellNumbered(rows + [row], prefix)
  {
    var all := rows + [row];
    forall i, j | 0 <= i < |all| && 0 <= j < |all| && all[i].id < all[j].id
                  && StartsWith(all[i].number, prefix) && StartsWith(all[j].number, prefix)
      ensures IntVal(all[i].number[|prefix|..]) < IntVal(all[j].number[|prefix|..])
    {
      if j == |rows| {
        assert i < |rows|;
      } else {
        assert i < |rows| && all[i] == rows[i] && all[j] == rows[j];
      }
    }
  }
}
