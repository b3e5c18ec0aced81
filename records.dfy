/** Hourly weather records and the reductions both summarisers share: the
    non-null values of one field, their sum, maximum, minimum and the number of
    strictly positive values. Values are exact reals; the services' 2-decimal
    rounding is not modelled. */
module Records {
  import opened Wrappers

  /** One hour for one place: the timestamp text exactly as the weather API
      sent it, and field name -> value, None standing for null. A field that
      is not a key of `values` is absent from the record. */
  datatype HourlyRecord = HourlyRecord(datetime: string, values: map<string, Option<real>>)

  /** The value of `key` in `r`, None when it is null or absent (JS's `!= null`
      and pandas' `dropna` both drop these). */
  function ValueOf(r: HourlyRecord, key: string): Option<real>
  {
    if key in r.values then r.values[key] else None
  }

  /** The non-null values of `key` over `records`, in record order. */
  function Present(records: seq<HourlyRecord>, key: string): (xs: seq<real>)
    ensures |xs| <= |records|
  {
    if |records| == 0 then []
    else
      var rest := Present(records[1..], key);
      match ValueOf(records[0], key)
      case Some(x) => [x] + rest
      case None => rest
  }

  /** A record is counted for `key` exactly when its value is non-null. */
  lemma {:induction false} PresentEmptyIff(records: seq<HourlyRecord>, key: string)
    ensures Present(records, key) == [] <==> forall i :: 0 <= i < |records| ==> ValueOf(records[i], key) == None
  {
    if |records| > 0 {
      PresentEmptyIff(records[1..], key);
      if ValueOf(records[0], key) == None {
        forall i | 0 <= i < |records| ensures ValueOf(records[i], key) == None <== Present(records, key) == [] {
          if i > 0 { assert records[i] == records[1..][i - 1]; }
        }
      }
      assert forall i :: 1 <= i < |records| ==> records[i] == records[1..][i - 1];
    }
  }

  function Sum(xs: seq<real>): real
  {
    if |xs| == 0 then 0.0 else xs[0] + Sum(xs[1..])
  }

  function MaxOf(xs: seq<real>): (m: real)
    requires |xs| > 0
    ensures m in xs
    ensures forall i :: 0 <= i < |xs| ==> xs[i] <= m
  {
    if |xs| == 1 then xs[0]
    else
      var rest := MaxOf(xs[1..]);
      assert forall i :: 1 <= i < |xs| ==> xs[i] == xs[1..][i - 1];
      if xs[0] >= rest then xs[0] else rest
  }

  function MinOf(xs: seq<real>): (m: real)
    requires |xs| > 0
    ensures m in xs
    ensures forall i :: 0 <= i < |xs| ==> m <= xs[i]
  {
    if |xs| == 1 then xs[0]
    else
      var rest := MinOf(xs[1..]);
      assert forall i :: 1 <= i < |xs| ==> xs[i] == xs[1..][i - 1];
      if xs[0] <= rest then xs[0] else rest
  }

  function Mean(xs: seq<real>): real
    requires |xs| > 0
  {
    Sum(xs) / (|xs| as real)
  }

  /** The number of values strictly greater than zero: a dry hour (0) is not rainy. */
  function CountPositive(xs: seq<real>): (n: nat)
    ensures n <= |xs|
  {
    if |xs| == 0 then 0 else (if xs[0] > 0.0 then 1 else 0) + CountPositive(xs[1..])
  }

  lemma {:induction false} SumAtLeast(xs: seq<real>, lo: real)
    requires forall i :: 0 <= i < |xs| ==> lo <= xs[i]
    ensures (|xs| as real) * lo <= Sum(xs)
  {
    if |xs| > 0 {
      assert forall i :: 0 <= i < |xs[1..]| ==> xs[1..][i] == xs[i + 1];
      SumAtLeast(xs[1..], lo);
    }
  }

  lemma {:induction false} SumAtMost(xs: seq<real>, hi: real)
    requires forall i :: 0 <= i < |xs| ==> xs[i] <= hi
    ensures Sum(xs) <= (|xs| as real) * hi
  {
    if |xs| > 0 {
      assert forall i :: 0 <= i < |xs[1..]| ==> xs[1..][i] == xs[i + 1];
      SumAtMost(xs[1..], hi);
    }
  }

  lemma QuotientAtLeast(s: real, n: real, lo: real)
    requires n > 0.0 && s >= n * lo
    ensures s / n >= lo
  {
    var q := s / n;
    assert q * n == s;
    if q < lo {
      assert (lo - q) * n > 0.0;
    }
  }

  lemma QuotientAtMost(s: real, n: real, hi: real)
    requires n > 0.0 && s <= n * hi
    ensures s / n <= hi
  {
    var q := s / n;
    assert q * n == s;
    if q > hi {
      assert (q - hi) * n > 0.0;
    }
  }

  /** The average reported for a field is never below its minimum ... */
  lemma MeanAtLeastMin(xs: seq<real>)
    requires |xs| > 0
    ensures MinOf(xs) <= Mean(xs)
  {
    MeanAtLeast(xs, MinOf(xs));
  }

  /** ... and never above its maximum. */
  lemma MeanAtMostMax(xs: seq<real>)
    requires |xs| > 0
    ensures Mean(xs) <= MaxOf(xs)
  {
    MeanAtMost(xs, MaxOf(xs));
  }

  lemma MeanAtLeast(xs: seq<real>, lo: real)
    requires |xs| > 0
    requires forall i :: 0 <= i < |xs| ==> lo <= xs[i]
    ensures lo <= Mean(xs)
  {
    SumAtLeast(xs, lo);
    QuotientAtLeast(Sum(xs), |xs| as real, lo);
  }

  lemma MeanAtMost(xs: seq<real>, hi: real)
    requires |xs| > 0
    requires forall i :: 0 <= i < |xs| ==> xs[i] <= hi
    ensures Mean(xs) <= hi
  {
    SumAtMost(xs, hi);
    QuotientAtMost(Sum(xs), |xs| as real, hi);
  }

  lemma {:induction false} SumConcat(a: seq<real>, b: seq<real>)
    ensures Sum(a + b) == Sum(a) + Sum(b)
  {
    if |a| > 0 {
      assert (a + b)[1..] == a[1..] + b;
      SumConcat(a[1..], b);
    } else {
      assert a + b == b;
    }
  }

  lemma {:induction false} CountPositiveConcat(a: seq<real>, b: seq<real>)
    ensures CountPositive(a + b) == CountPositive(a) + CountPositive(b)
  {
    if |a| > 0 {
      assert (a + b)[1..] == a[1..] + b;
      CountPositiveConcat(a[1..], b);
    } else {
      assert a + b == b;
    }
  }
}
