/**
 * Value extraction and aggregation: `_numbers_from_csv` and `_aggregate`, which
 * collectors.py and panos-monitor.py define identically.
 */
module Aggregation {
  import opened Wrappers
  import opened Text

  // ---------------------------------------------------------------------------
  // _numbers_from_csv

  /** The value of one stripped token when it matches `[0-9]+(\.[0-9]+)?`. */
  function TokenValue(t: string): (r: Option<real>)
    ensures r.Some? <==> IsDecimalToken(t)
    ensures r.Some? ==> r.value >= 0.0
  {
    if IsDecimalToken(t) then DecimalTokenParses(t); Some(DecimalBody(t).value) else None
  }

  /** The numbers of a token list, in order: each token that matches once stripped. */
  function TokenNumbers(tokens: seq<string>): (r: seq<real>)
    ensures |r| <= |tokens|
    ensures NonNegative(r)
  {
    if tokens == [] then []
    else
      var v := TokenValue(Strip(tokens[|tokens| - 1]));
      TokenNumbers(tokens[..|tokens| - 1]) + (if v.Some? then [v.value] else [])
  }

  /** Every value is at least zero. */
  predicate NonNegative(s: seq<real>) {
    forall i :: 0 <= i < |s| ==> s[i] >= 0.0
  }

  /** The numbers `_numbers_from_csv` extracts from a comma-separated text. */
  function CsvNumbers(text: string): seq<real> {
    TokenNumbers(Split(text, ','))
  }

  /** `_numbers_from_csv`: a loop over the comma-separated tokens that appends each number. */
  method NumbersFromCsv(text: string) returns (nums: seq<real>)
    ensures nums == CsvNumbers(text)
    ensures NonNegative(nums)
  {
    var tokens := Split(text, ',');
    nums := [];
    var i := 0;
    while i < |tokens|
      invariant 0 <= i <= |tokens|
      invariant nums == TokenNumbers(tokens[..i])
    {
      var xs := Strip(tokens[i]);
      TokenNumbersStep(tokens, i, xs);
      if IsDecimalToken(xs) {
        nums := nums + [TokenValue(xs).value];
      }
      i := i + 1;
    }
    assert tokens[..i] == tokens;
  }

  /** One more token adds its number, if it has one, at the end. */
  lemma TokenNumbersStep(tokens: seq<string>, i: nat, xs: string)
    requires i < |tokens| && xs == Strip(tokens[i])
    ensures TokenNumbers(tokens[..i + 1])
         == TokenNumbers(tokens[..i]) + (if IsDecimalToken(xs) then [TokenValue(xs).value] else [])
  {
    assert tokens[..i + 1][..i] == tokens[..i];
  }

  lemma {:induction false} SplitAppend(a: string, b: string, sep: char)
    ensures Split(a + [sep] + b, sep) == Split(a, sep) + Split(b, sep)
  {
    if a == [] {
      assert a + [sep] + b == [sep] + b;
    } else {
      assert (a + [sep] + b)[1..] == a[1..] + [sep] + b;
      SplitAppend(a[1..], b, sep);
    }
  }

  lemma {:induction false} SplitNoSeparator(t: string, sep: char)
    requires forall i :: 0 <= i < |t| ==> t[i] != sep
    ensures Split(t, sep) == [t]
  {
    if t != [] {
      SplitNoSeparator(t[1..], sep);
      assert [t[0]] + t[1..] == t;
    }
  }

  lemma {:induction false} TokenNumbersAppend(xs: seq<string>, ys: seq<string>)
    ensures TokenNumbers(xs + ys) == TokenNumbers(xs) + TokenNumbers(ys)
  {
    if ys != [] {
      var n := |ys| - 1;
      assert (xs + ys)[..|xs + ys| - 1] == xs + ys[..n];
      TokenNumbersAppend(xs, ys[..n]);
      var v := TokenValue(Strip(ys[n]));
      AppendAssoc(TokenNumbers(xs), TokenNumbers(ys[..n]), if v.Some? then [v.value] else []);
    } else {
      assert xs + ys == xs;
    }
  }

  /**
   * The numbers of `a,b` are the numbers of `a` followed by those of `b`: order is kept
   * and no token is merged with or dropped because of its neighbour.
   */
  lemma CsvNumbersConcat(a: string, b: string)
    ensures CsvNumbers(a + "," + b) == CsvNumbers(a) + CsvNumbers(b)
  {
    SplitAppend(a, b, ',');
    TokenNumbersAppend(Split(a, ','), Split(b, ','));
  }

  /** A single comma-free token yields its value exactly when it matches once stripped. */
  lemma CsvNumbersToken(t: string)
    requires forall i :: 0 <= i < |t| ==> t[i] != ','
    ensures CsvNumbers(t) == (if IsDecimalToken(Strip(t)) then [TokenValue(Strip(t)).value] else [])
  {
    SplitNoSeparator(t, ',');
    assert [t][..0] == [];
  }

  /** Empty text (also what a missing XML text becomes) gives no numbers. */
  lemma CsvNumbersEmpty()
    ensures CsvNumbers("") == []
  {
    assert Split("", ',') == [""];
    assert !IsDecimalToken(Strip(""));
  }

  // ---------------------------------------------------------------------------
  // _aggregate

  function Sum(s: seq<real>): real {
    if s == [] then 0.0 else Sum(s[..|s| - 1]) + s[|s| - 1]
  }

  /** `max(values)`: an element that no element exceeds. */
  function Max(s: seq<real>): (r: real)
    requires |s| > 0
    ensures r in s
    ensures forall i :: 0 <= i < |s| ==> s[i] <= r
  {
    if |s| == 1 then s[0]
    else
      var m := Max(s[..|s| - 1]);
      assert forall i :: 0 <= i < |s| - 1 ==> s[i] == s[..|s| - 1][i];
      if s[|s| - 1] > m then s[|s| - 1] else m
  }

  /** `min(values)`: an element that exceeds no element. */
  function Min(s: seq<real>): (r: real)
    requires |s| > 0
    ensures r in s
    ensures forall i :: 0 <= i < |s| ==> r <= s[i]
  {
    if |s| == 1 then s[0]
    else
      var m := Min(s[..|s| - 1]);
      assert forall i :: 0 <= i < |s| - 1 ==> s[i] == s[..|s| - 1][i];
      if s[|s| - 1] < m then s[|s| - 1] else m
  }

  /** `sum(values) / len(values)`, which lies between the smallest and the largest value. */
  function Mean(s: seq<real>): (r: real)
    requires |s| > 0
    ensures Min(s) <= r <= Max(s)
  {
    MeanOf(Sum(s), |s|, s, Min(s), Max(s))
  }

  predicate SortedAsc(s: seq<real>) {
    forall i, j :: 0 <= i < j < |s| ==> s[i] <= s[j]
  }

  function Insert(x: real, s: seq<real>): (r: seq<real>)
    requires SortedAsc(s)
    decreases |s|, 0
    ensures SortedAsc(r)
    ensures |r| == |s| + 1
    ensures multiset(r) == multiset(s) + multiset{x}
  {
    if s == [] then [x]
    else if x <= s[0] then ConsSorted(x, s); [x] + s
    else
      var t := Insert(x, s[1..]);
      assert s == [s[0]] + s[1..];
      InsertAbove(x, s[1..], s[0]);
      ConsSorted(s[0], t);
      [s[0]] + t
  }

  /** A sorted list stays sorted behind an element no larger than any of its own. */
  lemma ConsSorted(a: real, t: seq<real>)
    requires SortedAsc(t) && forall i :: 0 <= i < |t| ==> a <= t[i]
    ensures SortedAsc([a] + t)
  {
  }

  /** Every element of `Insert(x, s)` is at least a common lower bound of `x` and `s`. */
  lemma InsertAbove(x: real, s: seq<real>, lo: real)
    requires SortedAsc(s)
    requires lo <= x && forall i :: 0 <= i < |s| ==> lo <= s[i]
    ensures forall i :: 0 <= i < |Insert(x, s)| ==> lo <= Insert(x, s)[i]
    decreases |s|, 1
  {
    var t := Insert(x, s);
    forall i | 0 <= i < |t|
      ensures lo <= t[i]
    {
      assert t[i] in multiset(t);
      assert t[i] in multiset(s) || t[i] == x;
      if t[i] != x {
        var j :| 0 <= j < |s| && s[j] == t[i];
      }
    }
  }

  /** `sorted(values)`: an ascending permutation of the input. */
  function Sorted(s: seq<real>): (r: seq<real>)
    ensures SortedAsc(r)
    ensures |r| == |s|
    ensures multiset(r) == multiset(s)
  {
    if s == [] then []
    else
      assert s == [s[0]] + s[1..];
      Insert(s[0], Sorted(s[1..]))
  }

  /** `ceil(0.95 * n)`, computed exactly as the ceiling of 19n/20. */
  function Ceil95(n: nat): nat {
    (19 * n + 19) / 20
  }

  /**
   * The nearest-rank index `max(0, min(n - 1, ceil(0.95 n) - 1))`: a valid index, the
   * smallest whose rank `r + 1` covers at least 95% of the `n` values.
   */
  function P95Index(n: nat): (r: int)
    requires n >= 1
    ensures 0 <= r < n
    ensures 19 * n <= 20 * (r + 1)
    ensures r > 0 ==> 20 * r < 19 * n
  {
    var c := Ceil95(n) - 1;
    var m := if n - 1 < c then n - 1 else c;
    if 0 < m then m else 0
  }

  /** The mode after `(mode or "mean").lower()`. */
  function ModeName(mode: Option<string>): string {
    Lower(if mode.None? || mode.value == "" then "mean" else mode.value)
  }

  /** The three behaviours `_aggregate` chooses between. */
  datatype Mode = MaxMode | P95Mode | MeanMode

  /** "max" and "p95" select their modes; every other name falls through to the mean. */
  function ModeOf(mode: Option<string>): (r: Mode)
    ensures r == MaxMode <==> ModeName(mode) == "max"
    ensures r == P95Mode <==> ModeName(mode) == "p95"
  {
    var m := ModeName(mode);
    if m == "max" then MaxMode else if m == "p95" then P95Mode else MeanMode
  }

  /**
   * `_aggregate`: 0.0 for no values; otherwise max, nearest-rank p95 or (for every other
   * mode, None included) the mean. The result always lies between min and max.
   */
  function Aggregate(values: seq<real>, mode: Option<string>): (r: real)
    ensures values == [] ==> r == 0.0
    ensures values != [] ==> Min(values) <= r <= Max(values)
  {
    if values == [] then 0.0
    else
      match ModeOf(mode)
      case MaxMode => Max(values)
      case P95Mode => P95Bounds(values); Sorted(values)[P95Index(|values|)]
      case MeanMode => Mean(values)
  }

  // ---------------------------------------------------------------------------
  // Properties of the aggregation

  lemma {:induction false} SumBounds(s: seq<real>, lo: real, hi: real)
    requires forall i :: 0 <= i < |s| ==> lo <= s[i] <= hi
    ensures |s| as real * lo <= Sum(s) <= |s| as real * hi
  {
    if s != [] {
      var n := |s| - 1;
      assert forall i :: 0 <= i < n ==> s[..n][i] == s[i];
      SumBounds(s[..n], lo, hi);
      assert |s| as real * lo == n as real * lo + lo;
      assert |s| as real * hi == n as real * hi + hi;
    }
  }

  /** The mean lies between the minimum and the maximum. */
  lemma MeanWithin(s: seq<real>, lo: real, hi: real)
    requires |s| > 0
    requires forall i :: 0 <= i < |s| ==> lo <= s[i] <= hi
    ensures lo <= Mean(s) <= hi
  {
    SumBounds(s, lo, hi);
    DivBetween(Sum(s), |s| as real, lo, hi);
  }

  /** `total / n` for the sum `total` of the `n` values of `s`, which lie in `[lo, hi]`. */
  function MeanOf(total: real, n: nat, s: seq<real>, lo: real, hi: real): (r: real)
    requires n == |s| > 0 && total == Sum(s)
    requires forall i :: 0 <= i < |s| ==> lo <= s[i] <= hi
    ensures lo <= r <= hi && r == total / n as real
  {
    SumBounds(s, lo, hi);
    DivBetween(total, n as real, lo, hi);
    total / n as real
  }

  lemma DivBetween(x: real, n: real, lo: real, hi: real)
    requires n > 0.0 && n * lo <= x <= n * hi
    ensures lo <= x / n <= hi
  {
    assert x / n - lo == (x - n * lo) / n;
    assert hi - x / n == (n * hi - x) / n;
  }

  /** For up to 19 values the nearest-rank index is the last one. */
  lemma P95IndexSmall(n: nat)
    requires 1 <= n <= 19
    ensures P95Index(n) == n - 1
  {
    assert 19 * n + 19 == 20 * n + (19 - n);
    assert (19 * n + 19) / 20 == n;
  }

  /** Every element of a sorted permutation is an element of the original. */
  lemma SortedElement(s: seq<real>, k: int)
    requires 0 <= k < |s|
    ensures Sorted(s)[k] in s
  {
    var r := Sorted(s);
    assert r[k] in multiset(r);
  }

  /** The last element of the sorted permutation is the maximum. */
  lemma SortedLastIsMax(s: seq<real>)
    requires |s| > 0
    ensures |Sorted(s)| == |s| && Sorted(s)[|s| - 1] == Max(s)
  {
    var r := Sorted(s);
    SortedElement(s, |s| - 1);
    var j := SortedIndexOf(s, Max(s));
    SortedAscLast(r, j);
  }

  /** A value of the list sits at some index of its sorted copy. */
  lemma SortedIndexOf(s: seq<real>, x: real) returns (j: nat)
    requires x in s
    ensures j < |Sorted(s)| && Sorted(s)[j] == x
  {
    assert x in multiset(s);
    assert x in multiset(Sorted(s));
    j :| 0 <= j < |Sorted(s)| && Sorted(s)[j] == x;
  }

  /** No element of an ascending list exceeds its last one. */
  lemma SortedAscLast(r: seq<real>, j: nat)
    requires SortedAsc(r) && j < |r|
    ensures r[j] <= r[|r| - 1]
  {
  }

  /** The p95 of a non-empty list is one of its values, between its min and max. */
  lemma P95Bounds(values: seq<real>)
    requires |values| > 0
    ensures |Sorted(values)| == |values|
    ensures Sorted(values)[P95Index(|values|)] in values
    ensures Min(values) <= Sorted(values)[P95Index(|values|)] <= Max(values)
  {
    SortedLastIsMax(values);
    SortedElement(values, P95Index(|values|));
  }

  /** With fewer than 20 values the p95 equals the maximum (p95 of [1, 2, 3] is 3). */
  lemma P95OfFewIsMax(values: seq<real>)
    requires 1 <= |values| <= 19
    ensures Aggregate(values, Some("p95")) == Max(values)
  {
    var n := |values|;
    P95IndexSmall(n);
    SortedLastIsMax(values);
    var top := Sorted(values)[P95Index(n)];
    assert top == Max(values);
    var p95 := Some("p95");
    assert ModeOf(p95) == P95Mode by { ModeNames(); }
    AggregateByMode(values, p95);
  }

  /** From 20 values on, the nearest rank stops short of the last: index 18 of 20. */
  lemma P95IndexOfTwenty()
    ensures P95Index(20) == 18
  {
  }

  /**
   * The mode is case-insensitive; None and "" mean the mean, and so does any name other
   * than "max" and "p95".
   */
  lemma ModeNames()
    ensures ModeOf(Some("mean")) == MeanMode && ModeOf(None) == MeanMode && ModeOf(Some("")) == MeanMode
    ensures ModeOf(Some("max")) == MaxMode && ModeOf(Some("MAX")) == MaxMode
    ensures ModeOf(Some("p95")) == P95Mode && ModeOf(Some("P95")) == P95Mode
    ensures ModeOf(Some("median")) == MeanMode
  {
    LowerUnchanged("mean");
    LowerUnchanged("max");
    LowerUnchanged("p95");
    LowerUnchanged("median");
    assert Lower("MAX") == "max";
    assert Lower("P95") == "p95";
    assert "max"[0] != "p95"[0];
  }

  /** The lower-case names "mean", "max" and "p95" select their modes. */
  lemma AggregateNamedModes(values: seq<real>)
    requires values != []
    ensures Aggregate(values, Some("mean")) == Mean(values)
    ensures Aggregate(values, Some("max")) == Max(values)
    ensures Aggregate(values, Some("p95")) == Sorted(values)[P95Index(|values|)]
  {
    var mean, max, p95 := Some("mean"), Some("max"), Some("p95");
    assert ModeOf(mean) == MeanMode && ModeOf(max) == MaxMode && ModeOf(p95) == P95Mode by {
      ModeNames();
    }
    AggregateByMode(values, mean);
    AggregateByMode(values, max);
    AggregateByMode(values, p95);
  }

  /** What each mode computes on a non-empty list. */
  lemma AggregateByMode(values: seq<real>, mode: Option<string>)
    requires values != []
    ensures ModeOf(mode) == MaxMode ==> Aggregate(values, mode) == Max(values)
    ensures ModeOf(mode) == P95Mode ==> Aggregate(values, mode) == Sorted(values)[P95Index(|values|)]
    ensures ModeOf(mode) == MeanMode ==> Aggregate(values, mode) == Mean(values)
  {
  }
}
