/**
 * The parts of PHP's runtime semantics that the endpoints rely on: decoded
 * JSON values, `isset` / `empty` / the `(bool)` cast, numeric strings
 * (`is_numeric`, `floatval`, `intval`), decimal text, `str_pad` and `trim`.
 *
 * Every number is fixed-point with two decimals: `Num(h)` is the JSON number
 * h / 100, so a quantity is in hundredths and a price in cents.
 */
module Php {
  import opened Wrappers

  /** A request body after `json_decode($body, true)`. An object becomes an
      ordered list of key/value pairs, as PHP arrays are ordered. */
  datatype Value =
    | Null
    | Bool(b: bool)
    | Num(hundredths: int)
    | Str(s: string)
    | List(elems: seq<Value>)
    | Assoc(fields: seq<(string, Value)>)

  /** `$array[$key]`: the last pair with that key wins, as in `json_decode`. */
  function Lookup(fields: seq<(string, Value)>, key: string): (r: Option<Value>)
    ensures r.None? <==> forall i :: 0 <= i < |fields| ==> fields[i].0 != key
    ensures r.Some? ==> exists i :: 0 <= i < |fields| && fields[i] == (key, r.value)
                                  && forall j :: i < j < |fields| ==> fields[j].0 != key
  {
    if |fields| == 0 then None
    else if fields[|fields| - 1].0 == key then Some(fields[|fields| - 1].1)
    else Lookup(fields[..|fields| - 1], key)
  }

  /** `$v[$key]` on any value; only an object has fields. */
  function Field(v: Value, key: string): Option<Value>
  {
    if v.Assoc? then Lookup(v.fields, key) else None
  }

  /** `$array[$key] = $value`: the pair with that key takes the value in
      place, or the pair is appended. */
  function Assign(pairs: seq<(string, Value)>, key: string, value: Value): (r: seq<(string, Value)>)
    ensures |r| == |pairs| || |r| == |pairs| + 1
    ensures r != []
  {
    if pairs == [] then [(key, value)]
    else if pairs[|pairs| - 1].0 == key then pairs[..|pairs| - 1] + [(key, value)]
    else Assign(pairs[..|pairs| - 1], key, value) + [pairs[|pairs| - 1]]
  }

  /** The array `json_decode` builds from an object's members: each key
      once, at the place it first appears, with the last value given. */
  function ArrayOf(fields: seq<(string, Value)>): (r: seq<(string, Value)>)
    ensures r == [] <==> fields == []
  {
    if fields == [] then []
    else Assign(ArrayOf(fields[..|fields| - 1]), fields[|fields| - 1].0, fields[|fields| - 1].1)
  }

  /** After an assignment the key reads the new value and every other key
      reads as before. */
  lemma {:induction false} AssignLookup(pairs: seq<(string, Value)>, key: string, value: Value, k: string)
    ensures Lookup(Assign(pairs, key, value), k) == if k == key then Some(value) else Lookup(pairs, k)
  {
    if pairs != [] {
      var init, last := pairs[..|pairs| - 1], pairs[|pairs| - 1];
      var r := Assign(pairs, key, value);
      if last.0 == key {
        assert r[..|r| - 1] == init;
      } else {
        AssignLookup(init, key, value, k);
        assert r[..|r| - 1] == Assign(init, key, value);
      }
    }
  }

  /** The array `json_decode` builds reads every key as the members do. */
  lemma {:induction false} ArrayOfLookup(fields: seq<(string, Value)>, k: string)
    ensures Lookup(ArrayOf(fields), k) == Lookup(fields, k)
  {
    if fields != [] {
      var init, last := fields[..|fields| - 1], fields[|fields| - 1];
      ArrayOfLookup(init, k);
      AssignLookup(ArrayOf(init), last.0, last.1, k);
    }
  }

  /** An assignment keeps the keys of an array distinct. */
  lemma {:induction false} AssignDistinct(pairs: seq<(string, Value)>, key: string, value: Value)
    requires DistinctPairKeys(pairs)
    ensures DistinctPairKeys(Assign(pairs, key, value))
    ensures forall i :: 0 <= i < |Assign(pairs, key, value)| ==>
              Assign(pairs, key, value)[i].0 == key || Lookup(pairs, Assign(pairs, key, value)[i].0).Some?
  {
    var r := Assign(pairs, key, value);
    if pairs != [] {
      var init, last := pairs[..|pairs| - 1], pairs[|pairs| - 1];
      if last.0 == key {
        forall i | 0 <= i < |r| - 1
          ensures Lookup(pairs, r[i].0).Some?
        {
          assert pairs[i] == r[i];
        }
      } else {
        AssignDistinct(init, key, value);
        var a := Assign(init, key, value);
        assert r[..|r| - 1] == a;
        forall i | 0 <= i < |a|
          ensures a[i].0 != last.0
          ensures a[i].0 == key || Lookup(pairs, a[i].0).Some?
        {
          if a[i].0 != key {
            var j :| 0 <= j < |init| && init[j] == (a[i].0, Lookup(init, a[i].0).value);
            assert pairs[j] == init[j];
          }
        }
      }
    }
  }

  predicate DistinctPairKeys(pairs: seq<(string, Value)>)
  {
    forall i, j :: 0 <= i < j < |pairs| ==> pairs[i].0 != pairs[j].0
  }

  /** The array `json_decode` builds has each key once. */
  lemma {:induction false} ArrayOfDistinct(fields: seq<(string, Value)>)
    ensures DistinctPairKeys(ArrayOf(fields))
  {
    if fields != [] {
      ArrayOfDistinct(fields[..|fields| - 1]);
      AssignDistinct(ArrayOf(fields[..|fields| - 1]), fields[|fields| - 1].0, fields[|fields| - 1].1);
    }
  }

  /** `is_array($v)`. */
  predicate IsArray(v: Value)
  {
    v.List? || v.Assoc?
  }

  /** `isset($v)`: present and not null. */
  predicate IsSet(v: Option<Value>)
  {
    v.Some? && v.value != Null
  }

  /** PHP's loose falsiness, the test behind `empty` and `(bool)`. */
  predicate Falsy(v: Value)
  {
    match v
    case Null => true
    case Bool(b) => !b
    case Num(h) => h == 0
    case Str(s) => s == "" || s == "0"
    case List(e) => e == []
    case Assoc(f) => f == []
  }

  /** `empty($v)`. */
  predicate IsEmpty(v: Option<Value>)
  {
    !IsSet(v) || Falsy(v.value)
  }

  // ---------------------------------------------------------------- digits

  predicate IsDigit(c: char)
  {
    '0' <= c <= '9'
  }

  predicate AllDigits(s: string)
  {
    forall i :: 0 <= i < |s| ==> IsDigit(s[i])
  }

  function DigitValue(c: char): nat
    requires IsDigit(c)
  {
    c as int - '0' as int
  }

  function DigitChar(d: nat): (c: char)
    requires d < 10
    ensures IsDigit(c) && DigitValue(c) == d
  {
    ('0' as int + d) as char
  }

  /** The value of a string of decimal digits. */
  function DigitsValue(s: string): nat
    requires AllDigits(s)
  {
    if s == [] then 0 else DigitsValue(s[..|s| - 1]) * 10 + DigitValue(s[|s| - 1])
  }

  /** The decimal text of a natural number, without leading zeros. */
  function NatText(n: nat): (s: string)
    ensures 1 <= |s| && AllDigits(s)
  {
    if n < 10 then [DigitChar(n)] else NatText(n / 10) + [DigitChar(n % 10)]
  }

  /** PHP's conversion of an integer to a string. */
  function IntText(n: int): string
  {
    if n < 0 then "-" + NatText(-n) else NatText(n)
  }

  lemma {:induction false} NatTextValue(n: nat)
    ensures DigitsValue(NatText(n)) == n
  {
    if n >= 10 {
      NatTextValue(n / 10);
      var s := NatText(n);
      assert s[..|s| - 1] == NatText(n / 10);
    }
  }

  function Pow10(k: nat): (p: nat)
    ensures p >= 1
  {
    if k == 0 then 1 else 10 * Pow10(k - 1)
  }

  /** A number has at most k digits exactly when it is below 10^k. */
  lemma {:induction false} NatTextLength(n: nat, k: nat)
    requires k >= 1
    ensures |NatText(n)| <= k <==> n < Pow10(k)
  {
    if n >= 10 {
      if k == 1 {
        assert Pow10(1) == 10;
        assert |NatText(n)| >= 2 by { assert |NatText(n)| == |NatText(n / 10)| + 1; }
      } else {
        NatTextLength(n / 10, k - 1);
        assert n < Pow10(k) <==> n / 10 < Pow10(k - 1);
      }
    } else {
      assert Pow10(k) >= 10 by { PowAtLeastTen(k); }
    }
  }

  lemma {:induction false} PowAtLeastTen(k: nat)
    requires k >= 1
    ensures Pow10(k) >= 10
  {
    if k > 1 {
      PowAtLeastTen(k - 1);
    }
  }

  /** `str_pad($s, $width, $pad, STR_PAD_LEFT)`: never truncates. */
  function PadLeft(s: string, width: nat, pad: char): (r: string)
    ensures |r| == if |s| >= width then |s| else width
    ensures r[|r| - |s|..] == s
    ensures forall i :: 0 <= i < |r| - |s| ==> r[i] == pad
  {
    if |s| >= width then s else seq(width - |s|, _ => pad) + s
  }

  /** The digits at the start of s, and what follows them. */
  function Digits(s: string): (r: (string, string))
    ensures AllDigits(r.0) && s == r.0 + r.1
    ensures r.1 == [] || !IsDigit(r.1[0])
  {
    if s != [] && IsDigit(s[0]) then
      var (d, rest) := Digits(s[1..]);
      ([s[0]] + d, rest)
    else ([], s)
  }

  lemma {:induction false} DigitsOf(d: string, t: string)
    requires AllDigits(d)
    requires t == [] || !IsDigit(t[0])
    ensures Digits(d + t) == (d, t)
  {
    var s := d + t;
    if d != [] {
      assert s[0] == d[0] && IsDigit(s[0]);
      assert s[1..] == d[1..] + t;
      DigitsOf(d[1..], t);
      assert [d[0]] + d[1..] == d;
      assert Digits(s) == ([s[0]] + Digits(s[1..]).0, Digits(s[1..]).1);
    } else {
      assert s == t;
    }
  }

  lemma {:induction false} ZerosValue(z: string)
    requires forall i :: 0 <= i < |z| ==> z[i] == '0'
    ensures AllDigits(z) && DigitsValue(z) == 0
  {
    if z != [] {
      ZerosValue(z[..|z| - 1]);
    }
  }

  /** Leading zeros do not change the value of a digit string. */
  lemma {:induction false} LeadingZerosValue(z: string, d: string)
    requires forall i :: 0 <= i < |z| ==> z[i] == '0'
    requires AllDigits(d)
    ensures AllDigits(z + d) && DigitsValue(z + d) == DigitsValue(d)
  {
    ZerosValue(z);
    if d != [] {
      assert (z + d)[..|z + d| - 1] == z + d[..|d| - 1];
      LeadingZerosValue(z, d[..|d| - 1]);
    } else {
      assert z + d == z;
    }
  }

  // ---------------------------------------------------------------- spaces and trim

  /** Whitespace that `is_numeric` and `intval` skip. */
  predicate IsSpace(c: char)
  {
    c == ' ' || c == '\t' || c == '\n' || c == '\r' || c == '\U{B}' || c == '\U{C}'
  }

  predicate AllSpaces(s: string)
  {
    forall i :: 0 <= i < |s| ==> IsSpace(s[i])
  }

  function SkipSpaces(s: string): string
  {
    if s != [] && IsSpace(s[0]) then SkipSpaces(s[1..]) else s
  }

  /** The characters `trim` strips by default. */
  predicate IsTrimChar(c: char)
  {
    c == ' ' || c == '\t' || c == '\n' || c == '\r' || c == '\0' || c == '\U{B}'
  }

  function TrimStart(s: string): (r: string)
    ensures r == [] <==> forall i :: 0 <= i < |s| ==> IsTrimChar(s[i])
    ensures r == [] || !IsTrimChar(r[0])
  {
    if s != [] && IsTrimChar(s[0]) then TrimStart(s[1..]) else s
  }

  function TrimEnd(s: string): (r: string)
    ensures r == [] <==> forall i :: 0 <= i < |s| ==> IsTrimChar(s[i])
    ensures r == [] || !IsTrimChar(r[|r| - 1])
  {
    if s != [] && IsTrimChar(s[|s| - 1]) then TrimEnd(s[..|s| - 1]) else s
  }

  /** `trim($s)`: empty exactly when every character is whitespace, and
      otherwise neither starting nor ending with whitespace. */
  function Trim(s: string): (r: string)
    ensures r == [] <==> forall i :: 0 <= i < |s| ==> IsTrimChar(s[i])
    ensures r == [] || (!IsTrimChar(r[0]) && !IsTrimChar(r[|r| - 1]))
  {
    var t := TrimStart(s);
    var r := TrimEnd(t);
    assert r != [] ==> !IsTrimChar(r[0]) by {
      if r != [] {
        assert TrimEnd(t) == t[..|r|] by { TrimEndPrefix(t); }
      }
    }
    r
  }

  lemma {:induction false} TrimEndPrefix(s: string)
    ensures |TrimEnd(s)| <= |s| && TrimEnd(s) == s[..|TrimEnd(s)|]
  {
    if s != [] && IsTrimChar(s[|s| - 1]) {
      TrimEndPrefix(s[..|s| - 1]);
    }
  }

  // ---------------------------------------------------------------- numbers in strings

  /** The value in hundredths of at most two decimal digits after a point. */
  function Decimals(f: string): nat
    requires |f| <= 2 && AllDigits(f)
  {
    if f == [] then 0
    else if |f| == 1 then DigitValue(f[0]) * 10
    else DigitValue(f[0]) * 10 + DigitValue(f[1])
  }

  /** An unsigned decimal at the start of t: digits, then an optional '.'
      with at most two decimals; its value in hundredths and what follows. */
  function ScanUnsigned(t: string): Option<(nat, string)>
  {
    var w := Digits(t);
    if w.1 != [] && w.1[0] == '.' then ScanFraction(w.0, w.1[1..])
    else if w.0 == [] then None
    else Some((DigitsValue(w.0) * 100, w.1))
  }

  /** The part after the point of a decimal whose whole part is `whole`. */
  function ScanFraction(whole: string, t: string): Option<(nat, string)>
    requires AllDigits(whole)
  {
    var f := Digits(t);
    if whole == [] && f.0 == [] then None
    else if |f.0| <= 2 then Some((DigitsValue(whole) * 100 + Decimals(f.0), f.1))
    else Some((DigitsValue(whole) * 100 + Decimals(f.0[..2]), f.0[2..] + f.1))
  }

  /** The length of an optional leading sign. */
  function SignLength(s: string): nat
  {
    if s != [] && (s[0] == '-' || s[0] == '+') then 1 else 0
  }

  /** The numeric prefix of s, with an optional sign: its value in
      hundredths and what follows it. */
  function ScanDecimal(s: string): Option<(int, string)>
  {
    var u := ScanUnsigned(s[SignLength(s)..]);
    if u.None? then None
    else if s != [] && s[0] == '-' then Some((-(u.value.0 as int), u.value.1))
    else Some((u.value.0 as int, u.value.1))
  }

  /** `is_numeric($s)` for a string, with its value in hundredths: a number
      with optional whitespace around it. */
  function NumericText(s: string): Option<int>
  {
    match ScanDecimal(SkipSpaces(s))
    case Some((v, rest)) => if AllSpaces(rest) then Some(v) else None
    case None => None
  }

  /** `is_numeric($v)` and the number it denotes: numbers and numeric strings. */
  function NumericValue(v: Value): Option<int>
  {
    match v
    case Num(h) => Some(h)
    case Str(s) => NumericText(s)
    case _ => None
  }

  /** `floatval($v)`: the numeric prefix of a string, 0 when there is none. */
  function FloatVal(v: Value): int
  {
    match v
    case Null => 0
    case Bool(b) => if b then 100 else 0
    case Num(h) => h
    case Str(s) => (match ScanDecimal(SkipSpaces(s)) case Some((x, _)) => x case None => 0)
    case List(e) => if e == [] then 0 else 100
    case Assoc(f) => if f == [] then 0 else 100
  }

  /** `intval($s)`: leading whitespace, an optional sign, then digits. */
  function IntVal(s: string): int
  {
    var t := SkipSpaces(s);
    if t != [] && t[0] == '-' then -(DigitsValue(Digits(t[1..]).0) as int)
    else if t != [] && t[0] == '+' then DigitsValue(Digits(t[1..]).0)
    else DigitsValue(Digits(t).0)
  }

  /** `intval` reads back a digit string followed by a non-digit. */
  lemma IntValOfDigits(d: string, t: string)
    requires 1 <= |d| && AllDigits(d)
    requires t == [] || !IsDigit(t[0])
    ensures IntVal(d + t) == DigitsValue(d)
  {
    var s := d + t;
    assert s[0] == d[0];
    assert SkipSpaces(s) == s;
    DigitsOf(d, t);
  }

  /** `intval` reads back a zero-padded natural number. */
  lemma PaddedNatIntVal(n: nat, width: nat)
    ensures IntVal(PadLeft(NatText(n), width, '0')) == n
  {
    var p := PadLeft(NatText(n), width, '0');
    var z := p[..|p| - |NatText(n)|];
    assert p == z + NatText(n);
    LeadingZerosValue(z, NatText(n));
    NatTextValue(n);
    assert p + [] == p;
    IntValOfDigits(p, []);
  }

  /** `intval` reads back a zero-padded number; padding a negative number
      can only make the text read larger (`str_pad("-4", 3, "0")` is "0-4"). */
  lemma PaddedIntVal(n: int, width: nat)
    ensures IntVal(PadLeft(IntText(n), width, '0')) >= n
    ensures n >= 0 ==> IntVal(PadLeft(IntText(n), width, '0')) == n
  {
    if n >= 0 {
      PaddedNatIntVal(n, width);
    } else {
      var p := PadLeft(IntText(n), width, '0');
      var z := p[..|p| - |IntText(n)|];
      assert p == z + IntText(n);
      if z == [] {
        assert p == "-" + NatText(-n);
        NegativeIntVal(-n);
      } else {
        ZerosValue(z);
        IntValOfDigits(z, IntText(n));
      }
    }
  }

  lemma NegativeIntVal(m: nat)
    requires m > 0
    ensures IntVal("-" + NatText(m)) == -(m as int)
  {
    var p := "-" + NatText(m);
    assert p[0] == '-' && SkipSpaces(p) == p;
    assert p[1..] == NatText(m) + [];
    DigitsOf(NatText(m), []);
    NatTextValue(m);
  }

  /** A non-empty digit string scans whole, as that many units. */
  lemma ScanAllDigits(s: string)
    requires 1 <= |s| && AllDigits(s)
    ensures ScanDecimal(s) == Some((DigitsValue(s) * 100 as int, []))
  {
    WholeDigits(s);
    assert SignLength(s) == 0 by { assert IsDigit(s[0]); }
    assert s[0..] == s;
    var w := Digits(s);
    assert w.0 == s && w.1 == [];
    assert ScanUnsigned(s) == Some((DigitsValue(s) * 100, []));
  }

  lemma WholeDigits(s: string)
    requires AllDigits(s)
    ensures Digits(s) == (s, [])
  {
    DigitsOf(s, []);
    assert s + [] == s;
  }

  /** The decimal text of a natural number is a numeric string for it. */
  lemma NumericNatText(n: nat)
    ensures NumericText(NatText(n)) == Some(n * 100)
  {
    var s := NatText(n);
    assert IsDigit(s[0]);
    assert SkipSpaces(s) == s;
    ScanAllDigits(s);
    NatTextValue(n);
    assert AllSpaces([]);
  }

  /** An empty value is no number, or zero. */
  lemma FalsyNumeric(v: Value)
    requires Falsy(v)
    ensures NumericValue(v).None? || NumericValue(v).value == 0
  {
    if v == Str("0") {
      assert NatText(0) == "0";
      NumericNatText(0);
    } else if v == Str("") {
      assert SkipSpaces("") == "" && Digits("") == ([], []);
    }
  }

  /** `intval` reads back the decimal text of a natural number. */
  lemma IntValNatText(n: nat)
    ensures IntVal(NatText(n)) == n
  {
    NatTextValue(n);
    assert NatText(n) + [] == NatText(n);
    IntValOfDigits(NatText(n), []);
  }

  /** `floatval` of a numeric value is the number `is_numeric` recognised. */
  lemma FloatValNumeric(v: Value)
    requires NumericValue(v).Some?
    ensures FloatVal(v) == NumericValue(v).value
  {
  }
}
