/**
 * The configuration endpoint, api/config.php.
 *
 * GET turns the stored rows into a key/value array, a later row with the
 * same key overwriting an earlier one. POST rejects an input that is not
 * a non-empty array and, inside a transaction, upserts each input key of
 * the allow-list with its value; any failure rolls the transaction back.
 *
 * The `Fault` of POST is the step of the transaction that throws: step i
 * is the i-th upsert executed, and the step after the last upsert is the
 * commit.
 */
module Config {
  import opened Wrappers
  import opened Php
  import opened Schema
  import opened Store

  /** The keys POST may write. */
  const AllowedKeys: seq<string> := ["company_name", "default_currency", "company_date", "tax_percent"]

  predicate Allowed(key: string)
  {
    key in AllowedKeys
  }

  datatype ConfigError = InvalidInput | OperationFailed
  {
    function Status(): int
    {
      if InvalidInput? then 400 else 500
    }

    /** The error text; a failed operation also carries the exception's
        message after this prefix. */
    function Message(): string
    {
      if InvalidInput? then "Invalid input data" else "Configuration operation failed: "
    }
  }

  const UpdatedMessage: string := "Configuration updated successfully"

  // ---------------------------------------------------------------- GET

  /** The rows as key/value pairs, in table order. */
  function RowPairs(rows: seq<ConfigRow>): (r: seq<(string, Value)>)
    ensures |r| == |rows|
    ensures forall i :: 0 <= i < |rows| ==> r[i] == (rows[i].key, rows[i].value)
  {
    seq(|rows|, i requires 0 <= i < |rows| => (rows[i].key, rows[i].value))
  }

  /** The `$config` array GET answers with: `$config[key] = value` for each
      row in turn. */
  function ConfigArray(rows: seq<ConfigRow>): seq<(string, Value)>
  {
    ArrayOf(RowPairs(rows))
  }

  /** GET's `foreach` over the fetched rows. */
  method GetConfig(db: Database) returns (config: seq<(string, Value)>)
    ensures config == ConfigArray(db.config)
  {
    var rows := db.config;
    config := [];
    var k := 0;
    while k < |rows|
      invariant 0 <= k <= |rows|
      invariant config == ArrayOf(RowPairs(rows[..k]))
    {
      var pairs := RowPairs(rows[..k + 1]);
      assert pairs[..k] == RowPairs(rows[..k]);
      config := Assign(config, rows[k].key, rows[k].value);
      k := k + 1;
    }
    assert rows[..k] == rows;
  }

  /** GET holds every stored key once. */
  lemma ConfigArrayDistinct(rows: seq<ConfigRow>)
    ensures DistinctPairKeys(ConfigArray(rows))
  {
    ArrayOfDistinct(RowPairs(rows));
  }

  /** GET reads a key as the last row with that key, or not at all when no
      row has it. */
  lemma ConfigArrayLookup(rows: seq<ConfigRow>, k: string)
    ensures Lookup(ConfigArray(rows), k).None? <==> forall i :: 0 <= i < |rows| ==> rows[i].key != k
    ensures Lookup(ConfigArray(rows), k).Some? ==>
              exists i :: 0 <= i < |rows| && rows[i] == ConfigRow(k, Lookup(ConfigArray(rows), k).value)
                          && forall j :: i < j < |rows| ==> rows[j].key != k
  {
    var pairs := RowPairs(rows);
    ArrayOfLookup(pairs, k);
    if Lookup(pairs, k).Some? {
      var i :| 0 <= i < |pairs| && pairs[i] == (k, Lookup(pairs, k).value)
               && forall j :: i < j < |pairs| ==> pairs[j].0 != k;
      assert rows[i] == ConfigRow(k, Lookup(pairs, k).value);
    }
  }

  /** With distinct stored keys, GET reads every row's value. */
  lemma ConfigArrayRows(rows: seq<ConfigRow>, i: nat)
    requires DistinctKeys(rows) && i < |rows|
    ensures Lookup(ConfigArray(rows), rows[i].key) == Some(rows[i].value)
  {
    var pairs := RowPairs(rows);
    ArrayOfLookup(pairs, rows[i].key);
    LookupAt(pairs, i);
  }

  /** With keys distinct after position i, the key at i reads its value. */
  lemma LookupAt(pairs: seq<(string, Value)>, i: nat)
    requires i < |pairs|
    requires forall j :: 0 <= j < |pairs| && j != i ==> pairs[j].0 != pairs[i].0
    ensures Lookup(pairs, pairs[i].0) == Some(pairs[i].1)
  {
    var v := Lookup(pairs, pairs[i].0);
    var j :| 0 <= j < |pairs| && pairs[j] == (pairs[i].0, v.value) && forall m :: j < m < |pairs| ==> pairs[m].0 != pairs[i].0;
    assert j == i;
  }

  // ---------------------------------------------------------------- POST

  /** The pairs `foreach ($input as $key => $value)` visits. A list has
      integer keys, which never equal an allowed key. */
  function Pairs(input: Value): seq<(string, Value)>
  {
    if input.Assoc? then ArrayOf(input.fields) else []
  }

  /** The pairs of the allow-list, in order. */
  function Filtered(pairs: seq<(string, Value)>): seq<(string, Value)>
  {
    if pairs == [] then []
    else Filtered(pairs[..|pairs| - 1]) + (if Allowed(pairs[|pairs| - 1].0) then [pairs[|pairs| - 1]] else [])
  }

  /** The upserts POST executes, in order. */
  function Writes(input: Value): seq<(string, Value)>
  {
    Filtered(Pairs(input))
  }

  /** The filter keeps exactly the allowed keys, with their values. */
  lemma {:induction false} FilteredLookup(pairs: seq<(string, Value)>, k: string)
    ensures Lookup(Filtered(pairs), k) == if Allowed(k) then Lookup(pairs, k) else None
  {
    if pairs != [] {
      var init, last := pairs[..|pairs| - 1], pairs[|pairs| - 1];
      FilteredLookup(init, k);
      var f := Filtered(pairs);
      if Allowed(last.0) {
        assert f[..|f| - 1] == Filtered(init);
      } else {
        assert f == Filtered(init);
      }
    }
  }

  lemma {:induction false} FilteredPrefix(pairs: seq<(string, Value)>, k: nat)
    requires k <= |pairs|
    ensures |Filtered(pairs[..k])| <= |Filtered(pairs)|
    decreases |pairs|
  {
    if k < |pairs| {
      FilteredPrefix(pairs[..|pairs| - 1], k);
      assert pairs[..|pairs| - 1][..k] == pairs[..k];
    } else {
      assert pairs[..k] == pairs;
    }
  }

  /** POST writes each allowed key of the input with the value the decoded
      input gives it, and nothing else. */
  lemma WritesLookup(input: Value, k: string)
    ensures Lookup(Writes(input), k) == if Allowed(k) then Field(input, k) else None
  {
    FilteredLookup(Pairs(input), k);
    if input.Assoc? {
      ArrayOfLookup(input.fields, k);
    }
  }

  /** The configuration table after upserting the pairs in order. */
  function UpsertAll(config: seq<ConfigRow>, writes: seq<(string, Value)>): (r: seq<ConfigRow>)
    requires DistinctKeys(config)
    ensures DistinctKeys(r)
  {
    if writes == [] then config
    else
      var before := UpsertAll(config, writes[..|writes| - 1]);
      UpsertKeepsKeysDistinct(before, writes[|writes| - 1].0, writes[|writes| - 1].1);
      UpsertRows(before, writes[|writes| - 1].0, writes[|writes| - 1].1)
  }

  /** An upsert sets its key and leaves every other key as it was. */
  lemma UpsertRowsLookup(config: seq<ConfigRow>, key: string, value: Value, k: string)
    requires DistinctKeys(config)
    ensures Lookup(RowPairs(UpsertRows(config, key, value)), k) == if k == key then Some(value) else Lookup(RowPairs(config), k)
  {
    if forall i :: 0 <= i < |config| ==> config[i].key != key {
      AppendedLookup(config, key, value, k);
    } else {
      var i :| 0 <= i < |config| && config[i].key == key;
      ReplacedLookup(config, key, value, k, i);
    }
  }

  lemma AppendedLookup(config: seq<ConfigRow>, key: string, value: Value, k: string)
    requires DistinctKeys(config) && forall i :: 0 <= i < |config| ==> config[i].key != key
    ensures Lookup(RowPairs(UpsertRows(config, key, value)), k) == if k == key then Some(value) else Lookup(RowPairs(config), k)
  {
    UpsertRowsShape(config, key, value);
    var after := RowPairs(UpsertRows(config, key, value));
    assert after[..|after| - 1] == RowPairs(config);
  }

  lemma ReplacedLookup(config: seq<ConfigRow>, key: string, value: Value, k: string, i: nat)
    requires DistinctKeys(config) && i < |config| && config[i].key == key
    ensures Lookup(RowPairs(UpsertRows(config, key, value)), k) == if k == key then Some(value) else Lookup(RowPairs(config), k)
  {
    if k == key {
      ReplacedKey(config, key, value, i);
    } else {
      var before := RowPairs(config);
      if Lookup(before, k).Some? {
        var j :| 0 <= j < |before| && before[j] == (k, Lookup(before, k).value);
        OtherStoredKey(config, key, value, i, j);
      } else {
        UnstoredKey(config, key, value, i, k);
      }
    }
  }

  lemma UnstoredKey(config: seq<ConfigRow>, key: string, value: Value, i: nat, k: string)
    requires DistinctKeys(config) && i < |config| && config[i].key == key && k != key
    requires Lookup(RowPairs(config), k).None?
    ensures Lookup(RowPairs(UpsertRows(config, key, value)), k).None?
  {
    var r := UpsertRows(config, key, value);
    UpsertRowsShape(config, key, value);
    var after := RowPairs(r);
    forall j | 0 <= j < |after|
      ensures after[j].0 != k
    {
      if j != i {
        assert r[j] == config[j];
        assert RowPairs(config)[j].0 != k;
      }
    }
  }

  lemma ReplacedKey(config: seq<ConfigRow>, key: string, value: Value, i: nat)
    requires DistinctKeys(config) && i < |config| && config[i].key == key
    ensures Lookup(RowPairs(UpsertRows(config, key, value)), key) == Some(value)
  {
    UpsertKeepsKeysDistinct(config, key, value);
    UpsertRowsShape(config, key, value);
    LookupAt(RowPairs(UpsertRows(config, key, value)), i);
  }

  lemma OtherStoredKey(config: seq<ConfigRow>, key: string, value: Value, i: nat, j: nat)
    requires DistinctKeys(config) && i < |config| && config[i].key == key
    requires j < |config| && config[j].key != key
    ensures Lookup(RowPairs(UpsertRows(config, key, value)), config[j].key) == Lookup(RowPairs(config), config[j].key)
  {
    var r := UpsertRows(config, key, value);
    UpsertKeepsKeysDistinct(config, key, value);
    UpsertRowsShape(config, key, value);
    assert r[j] == config[j];
    LookupAt(RowPairs(config), j);
    LookupAt(RowPairs(r), j);
  }

  /** After the upserts, a key reads the last value written to it or, when
      none was, its value before. */
  lemma {:induction false} UpsertAllLookup(config: seq<ConfigRow>, writes: seq<(string, Value)>, k: string)
    requires DistinctKeys(config)
    ensures Lookup(RowPairs(UpsertAll(config, writes)), k) ==
              if Lookup(writes, k).Some? then Lookup(writes, k) else Lookup(RowPairs(config), k)
  {
    if writes != [] {
      var init, last := writes[..|writes| - 1], writes[|writes| - 1];
      UpsertAllLookup(config, init, k);
      UpsertRowsLookup(UpsertAll(config, init), last.0, last.1, k);
    }
  }

  lemma FilteredStep(pairs: seq<(string, Value)>, k: nat)
    requires k < |pairs|
    ensures Allowed(pairs[k].0) ==> Filtered(pairs[..k + 1]) == Filtered(pairs[..k]) + [pairs[k]]
    ensures !Allowed(pairs[k].0) ==> Filtered(pairs[..k + 1]) == Filtered(pairs[..k])
  {
    assert pairs[..k + 1][..k] == pairs[..k];
  }

  lemma UpsertAllStep(config: seq<ConfigRow>, writes: seq<(string, Value)>, key: string, value: Value)
    requires DistinctKeys(config)
    ensures UpsertAll(config, writes + [(key, value)]) == UpsertRows(UpsertAll(config, writes), key, value)
  {
    assert (writes + [(key, value)])[..|writes|] == writes;
  }

  /** `!$input || !is_array($input)`. */
  predicate Rejected(input: Value)
  {
    Falsy(input) || !IsArray(input)
  }

  /** The `foreach` of POST inside the open transaction: upserts each
      allowed pair in turn, and stops when an upsert throws. */
  method UpsertPairs(db: Database, pairs: seq<(string, Value)>, fault: Fault) returns (ok: bool)
    requires db.Valid() && db.inTransaction
    modifies db
    ensures db.Valid() && db.inTransaction
    ensures db.invoices == old(db.invoices) && db.items == old(db.items)
    ensures db.nextInvoiceId == old(db.nextInvoiceId) && db.nextItemId == old(db.nextItemId)
    ensures db.savedConfig == old(db.savedConfig) && db.savedInvoices == old(db.savedInvoices)
    ensures db.savedItems == old(db.savedItems)
    ensures ok <==> !(fault.FailAt? && fault.step < |Filtered(pairs)|)
    ensures ok ==> db.config == UpsertAll(old(db.config), Filtered(pairs))
  {
    var k, n := 0, 0;
    ghost var written: seq<(string, Value)> := [];
    while k < |pairs|
      invariant 0 <= k <= |pairs|
      invariant db.Valid() && db.inTransaction
      invariant db.invoices == old(db.invoices) && db.items == old(db.items)
      invariant db.nextInvoiceId == old(db.nextInvoiceId) && db.nextItemId == old(db.nextItemId)
      invariant db.savedConfig == old(db.savedConfig) && db.savedInvoices == old(db.savedInvoices)
      invariant db.savedItems == old(db.savedItems)
      invariant written == Filtered(pairs[..k]) && n == |written|
      invariant db.config == UpsertAll(old(db.config), written)
      invariant !(fault.FailAt? && fault.step < n)
    {
      var key, value := pairs[k].0, pairs[k].1;
      FilteredStep(pairs, k);
      if Allowed(key) {
        if Hits(fault, n) {
          FilteredPrefix(pairs, k + 1);
          return false;
        }
        UpsertAllStep(old(db.config), written, key, value);
        db.UpsertConfig(key, value);
        written := written + [(key, value)];
        n := n + 1;
      }
      k := k + 1;
    }
    assert pairs[..k] == pairs;
    return true;
  }

  /** POST. */
  method PostConfig(db: Database, input: Value, fault: Fault) returns (r: Result<string, ConfigError>)
    requires db.Valid() && !db.inTransaction
    modifies db
    ensures db.Valid() && !db.inTransaction
    ensures db.invoices == old(db.invoices) && db.items == old(db.items)
    ensures db.nextInvoiceId == old(db.nextInvoiceId) && db.nextItemId == old(db.nextItemId)
    ensures Rejected(input) ==> r == Err(InvalidInput) && db.config == old(db.config)
    ensures !Rejected(input) ==>
              (r.Ok? <==> !(fault.FailAt? && fault.step <= |Writes(input)|))
              && (r.Ok? ==> r.value == UpdatedMessage && db.config == UpsertAll(old(db.config), Writes(input)))
              && (r.Err? ==> r.error == OperationFailed && db.config == old(db.config))
  {
    if Falsy(input) || !IsArray(input) {
      return Err(InvalidInput);
    }
    db.BeginTransaction();
    var ok := UpsertPairs(db, Pairs(input), fault);
    if !ok || Hits(fault, |Writes(input)|) {
      db.RollBack();
      return Err(OperationFailed);
    }
    db.Commit();
    return Ok(UpdatedMessage);
  }

  /** A successful POST, read back by GET: each allowed key of the input
      reads the input's value, and every other key reads as before. */
  lemma PostThenGet(config: seq<ConfigRow>, input: Value, k: string)
    requires DistinctKeys(config)
    ensures var after := ConfigArray(UpsertAll(config, Writes(input)));
            Lookup(after, k) == if Allowed(k) && Field(input, k).Some? then Field(input, k) else Lookup(ConfigArray(config), k)
  {
    WritesLookup(input, k);
    UpsertAllLookup(config, Writes(input), k);
    ArrayOfLookup(RowPairs(UpsertAll(config, Writes(input))), k);
    ArrayOfLookup(RowPairs(config), k);
  }

  /** Only keys of the allow-list ever change. */
  lemma OnlyAllowedChange(config: seq<ConfigRow>, input: Value, k: string)
    requires DistinctKeys(config) && !Allowed(k)
    ensures Lookup(ConfigArray(UpsertAll(config, Writes(input))), k) == Lookup(ConfigArray(config), k)
  {
    PostThenGet(config, input, k);
  }

  /** POSTing the same input twice reads as POSTing it once. */
  lemma PostIdempotent(config: seq<ConfigRow>, input: Value, k: string)
    requires DistinctKeys(config)
    ensures var once := UpsertAll(config, Writes(input));
            Lookup(ConfigArray(UpsertAll(once, Writes(input))), k) == Lookup(ConfigArray(once), k)
  {
    var once := UpsertAll(config, Writes(input));
    PostThenGet(config, input, k);
    PostThenGet(once, input, k);
  }
}
