/**
 * CurrencyService: conversion between currencies with the rate tables of an exchange-rate
 * service, and the list of currency codes it knows.
 *
 * `fetch(base)` stands for the HTTP request `v4/latest/{base}`: a failed request is a
 * `Failure` carrying the exception's message, a successful one the table of rates, where
 * one unit of `base` is worth `rates[c]` units of `c`. Amounts are `real`.
 */
module CurrencyService {
  import opened Wrappers
  import opened Text
  import opened FieldOps

  type RateTables = string -> Result<map<string, real>>

  const Pivot: string := "USD"
  const FailurePrefix: string := "Conversion failed: "

  /** What a call does: its result and the bases it requested, in order. */
  datatype Conversion = Conversion(result: Result<real>, requests: seq<string>)

  function NotAvailable(code: string): string {
    "Exchange rate not available for " + code + " (pivot lookup)"
  }

  /** An amount multiplied by an exchange rate. */
  function Scale(amount: real, rate: real): real {
    amount * rate
  }

  /** The rate the direct table of `from` quotes for `to`, if the request succeeds and has it. */
  function DirectRate(fetch: RateTables, from: string, to: string): Option<real> {
    match fetch(from)
    case Success(rates) => if to in rates then Some(rates[to]) else None
    case Failure(_) => None
  }

  /** The division `rateTo / rateFrom` is defined: a pivot rate quoted for `from` is not zero. */
  predicate PivotDefined(fetch: RateTables, from: string) {
    fetch(Pivot).Success? && from in fetch(Pivot).value ==> fetch(Pivot).value[from] != 0.0
  }

  /** The second strategy: both currencies looked up in the USD table. */
  function ViaPivot(fetch: RateTables, amount: real, from: string, to: string): (r: Result<real>)
    requires PivotDefined(fetch, from)
  {
    match fetch(Pivot)
    case Failure(msg) => Failure(FailurePrefix + msg)
    case Success(rates) =>
      if from !in rates then Failure(FailurePrefix + NotAvailable(from))
      else if to !in rates then Failure(FailurePrefix + NotAvailable(to))
      else Success(Scale(amount, rates[to] / rates[from]))
  }

  /**
   * convert(amount, fromCurrency, toCurrency): the same currency is returned unchanged
   * without a request; otherwise the direct rate is used when the table of `from` has one,
   * and only then the cross rate through USD.
   */
  function Convert(fetch: RateTables, amount: real, from: string, to: string): (c: Conversion)
    requires PivotDefined(fetch, from)
    ensures from == to ==> c == Conversion(Success(amount), [])
    ensures var direct := DirectRate(fetch, from, to);
            from != to && direct.Some? ==> c == Conversion(Success(Scale(amount, direct.value)), [from])
    ensures from != to && DirectRate(fetch, from, to).None? ==>
              c == Conversion(ViaPivot(fetch, amount, from, to), [from, Pivot])
  {
    if from == to then Conversion(Success(amount), [])
    else
      var direct := DirectRate(fetch, from, to);
      if direct.Some? then Conversion(Success(Scale(amount, direct.value)), [from])
      else Conversion(ViaPivot(fetch, amount, from, to), [from, Pivot])
  }

  /**
   * A conversion fails exactly when the currencies differ, the direct table has no rate and
   * the USD table is unavailable or lacks one of the two; every failure is "Conversion failed".
   */
  lemma ConvertFailsExactly(fetch: RateTables, amount: real, from: string, to: string)
    requires PivotDefined(fetch, from)
    ensures var c := Convert(fetch, amount, from, to);
            c.result.Failure? <==>
              && from != to
              && DirectRate(fetch, from, to).None?
              && (fetch(Pivot).Failure? || from !in fetch(Pivot).value || to !in fetch(Pivot).value)
    ensures var c := Convert(fetch, amount, from, to);
            c.result.Failure? ==> StartsWith(c.result.message, FailurePrefix)
  {
    var c := Convert(fetch, amount, from, to);
    if c.result.Failure? {
      var m := c.result.message;
      assert m[..|FailurePrefix|] == FailurePrefix;
    }
  }

  /** An amount in `from` at the pivot rates, expressed in `to`. */
  function CrossRate(rates: map<string, real>, from: string, to: string): real
    requires from in rates && to in rates && rates[from] != 0.0
  {
    rates[to] / rates[from]
  }

  /** Every direct table agrees with the USD table: a rate `from -> to` is the cross rate. */
  ghost predicate Coherent(fetch: RateTables) {
    fetch(Pivot).Success? && Pivot in fetch(Pivot).value && fetch(Pivot).value[Pivot] == 1.0
    && (forall c :: c in fetch(Pivot).value ==> fetch(Pivot).value[c] > 0.0)
    && forall b, c :: fetch(b).Success? && c in fetch(b).value ==>
         b in fetch(Pivot).value && c in fetch(Pivot).value
         && fetch(b).value[c] == CrossRate(fetch(Pivot).value, b, c)
  }

  /**
   * When the tables agree, the strategy does not matter: a successful conversion is the
   * amount times the cross rate, whichever table answered.
   */
  lemma ConvertIsCrossRate(fetch: RateTables, amount: real, from: string, to: string)
    requires Coherent(fetch)
    requires from in fetch(Pivot).value && to in fetch(Pivot).value
    ensures PivotDefined(fetch, from)
    ensures Convert(fetch, amount, from, to).result == Success(Scale(amount, CrossRate(fetch(Pivot).value, from, to)))
  {
    var rates := fetch(Pivot).value;
    if from == to {
      assert CrossRate(rates, from, to) == 1.0;
    } else if DirectRate(fetch, from, to).Some? {
      var rate := DirectRate(fetch, from, to).value;
      assert rate == fetch(from).value[to] == CrossRate(rates, from, to);
    }
  }

  lemma InverseRates(x: real, y: real)
    requires x != 0.0 && y != 0.0
    ensures (y / x) * (x / y) == 1.0
  {
    var p := y / x;
    assert p * x == y;
    calc {
      p * (x / y);
      == (p * x) / y;
      == y / y;
      == 1.0;
    }
  }

  /** With agreeing tables, converting there and back gives the amount again. */
  lemma ConvertRoundTrip(fetch: RateTables, amount: real, from: string, to: string)
    requires Coherent(fetch)
    requires from in fetch(Pivot).value && to in fetch(Pivot).value
    ensures PivotDefined(fetch, from) && PivotDefined(fetch, to)
    ensures var there := Convert(fetch, amount, from, to).result.value;
            Convert(fetch, there, to, from).result == Success(amount)
  {
    var rates := fetch(Pivot).value;
    ConvertIsCrossRate(fetch, amount, from, to);
    var there := Scale(amount, CrossRate(rates, from, to));
    ConvertIsCrossRate(fetch, there, to, from);
    var x, y := rates[from], rates[to];
    InverseRates(x, y);
    var c1, c2 := CrossRate(rates, from, to), CrossRate(rates, to, from);
    assert c1 == y / x && c2 == x / y;
    assert c1 * c2 == 1.0;
    assert Scale(there, c2) == amount * (c1 * c2) == amount * 1.0;
    assert Convert(fetch, amount, from, to).result.value == there;
    assert Convert(fetch, there, to, from).result == Success(Scale(there, c2));
    assert Scale(there, c2) == amount;
    assert Convert(fetch, there, to, from).result == Success(amount);
  }

  // ------------------------------------------------------------ getAvailableCurrencies

  /** Inserts a code into a strictly sorted list at its place. */
  function InsertSorted(x: string, s: seq<string>): (r: seq<string>)
    requires SortedStrictly(s) && x !in s
    ensures SortedStrictly(r)
    ensures forall y :: y in r <==> y == x || y in s
    ensures |r| == |s| + 1
  {
    if s == [] then [x]
    else if LexLess(x, s[0]) then
      forall k | 0 <= k < |s| ensures LexLess(x, s[k]) {
        if k > 0 { LexLessTransitive(x, s[0], s[k]); }
      }
      [x] + s
    else
      LexLessTotal(x, s[0]);
      var rest := InsertSorted(x, s[1..]);
      assert forall k :: 0 <= k < |rest| ==> rest[k] == x || rest[k] in s[1..];
      [s[0]] + rest
  }

  /** `sorted()` of a list of distinct codes: the same codes in increasing `compareTo` order. */
  function Sorted(s: seq<string>): (r: seq<string>)
    requires NoDuplicates(s)
    ensures SortedStrictly(r)
    ensures forall y :: y in r <==> y in s
    ensures |r| == |s|
  {
    if s == [] then []
    else
      assert forall k :: 0 <= k < |s| - 1 ==> s[..|s| - 1][k] == s[k];
      InsertSorted(s[|s| - 1], Sorted(s[..|s| - 1]))
  }

  lemma SameElementsEmpty(a: seq<string>, b: seq<string>)
    requires forall x :: x in a <==> x in b
    ensures a == [] <==> b == []
  {
    if a != [] { assert a[0] in b; }
    if b != [] { assert b[0] in a; }
  }

  /**
   * A strictly sorted list is determined by its elements: the currency listing does not
   * depend on the order the table's keys came in.
   */
  lemma {:induction false} SortedUnique(a: seq<string>, b: seq<string>)
    requires SortedStrictly(a) && SortedStrictly(b)
    requires forall x :: x in a <==> x in b
    ensures a == b
    decreases |a|
  {
    SameElementsEmpty(a, b);
    if a != [] {
      if a[0] != b[0] {
        assert b[0] in a;
        var i :| 0 <= i < |a| && a[i] == b[0];
        assert a[0] in b;
        var j :| 0 <= j < |b| && b[j] == a[0];
        assert LexLess(a[0], a[i]) && LexLess(b[0], b[j]);
        LexLessAsymmetric(a[0], b[0]);
      }
      forall x | x in a[1..] ensures x in b[1..] {
        var i :| 0 <= i < |a| - 1 && a[1..][i] == x;
        assert LexLess(a[0], a[i + 1]);
        LexLessIrreflexive(x);
        assert x in b;
        var j :| 0 <= j < |b| && b[j] == x;
        assert j != 0 && b[1..][j - 1] == x;
      }
      forall x | x in b[1..] ensures x in a[1..] {
        var j :| 0 <= j < |b| - 1 && b[1..][j] == x;
        assert LexLess(b[0], b[j + 1]);
        LexLessIrreflexive(x);
        assert x in a;
        var i :| 0 <= i < |a| && a[i] == x;
        assert i != 0 && a[1..][i - 1] == x;
      }
      SortedUnique(a[1..], b[1..]);
    }
  }

  /** `rates.keys.toMutableList()`: the keys of a table once each, in the table's own order. */
  method KeyList(rates: map<string, real>) returns (codes: seq<string>)
    ensures NoDuplicates(codes)
    ensures forall c :: c in codes <==> c in rates
  {
    codes := [];
    var rest := rates.Keys;
    while rest != {}
      invariant NoDuplicates(codes)
      invariant forall c :: c in codes <==> c in rates && c !in rest
      invariant rest <= rates.Keys
      decreases |rest|
    {
      var c :| c in rest;
      codes := codes + [c];
      rest := rest - {c};
    }
  }

  /**
   * getAvailableCurrencies(): the keys of the USD table, "USD" appended when missing, then
   * sorted. A failed request propagates as a failure.
   */
  method AvailableCurrencies(fetch: RateTables) returns (r: Result<seq<string>>)
    ensures fetch(Pivot).Failure? <==> r.Failure?
    ensures fetch(Pivot).Failure? ==> r.message == fetch(Pivot).message
    ensures r.Success? ==> SortedStrictly(r.value)
    ensures r.Success? ==> forall c :: c in r.value <==> c in fetch(Pivot).value || c == Pivot
  {
    var response := fetch(Pivot);
    if response.Failure? {
      return Failure(response.message);
    }
    var codes := KeyList(response.value);
    if Pivot !in codes {
      codes := codes + [Pivot];
    }
    r := Success(Sorted(codes));
  }
}
