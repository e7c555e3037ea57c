/** A timeline table as the service returns it: rows with a timestamp and
    named numeric cells (a missing value, pandas' NaN, is None). Sorting by
    timestamp (`sort_values('datetime', inplace=True)`, main.py:69) and the
    centred rolling mean (`calculate_moving_average`, main.py:10-27). */
module Series {
  import opened Base

  /** One row: `datetime` (already converted by `pd.to_datetime`, here an
      ordered abstract instant) and the other columns by name. */
  datatype Row = Row(datetime: int, cells: map<string, Option<real>>)

  type Series = seq<Row>

  /** Every row has the column, so `s[col]` does not raise KeyError. */
  predicate HasColumn(s: Series, col: string)
  {
    forall i :: 0 <= i < |s| ==> col in s[i].cells
  }

  /** The column `s[col]`. */
  function Column(s: Series, col: string): seq<Option<real>>
    requires HasColumn(s, col)
  {
    seq(|s|, i requires 0 <= i < |s| => s[i].cells[col])
  }

  /** The column `s['datetime']`. */
  function Datetimes(s: Series): seq<int>
  {
    seq(|s|, i requires 0 <= i < |s| => s[i].datetime)
  }

  // ---- sorting ----

  predicate SortedByDatetime(s: Series)
  {
    forall i, j :: 0 <= i < j < |s| ==> s[i].datetime <= s[j].datetime
  }

  predicate Ascending(s: seq<int>)
  {
    forall i, j :: 0 <= i < j < |s| ==> s[i] <= s[j]
  }

  /** The first `n` rows are in non-decreasing timestamp order. */
  predicate SortedPrefix(s: seq<Row>, n: int)
    requires 0 <= n <= |s|
  {
    forall p, q :: 0 <= p < q < n ==> s[p].datetime <= s[q].datetime
  }

  /** `s[..n + 1]` is in timestamp order except possibly around position `j`. */
  predicate SortedExcept(s: seq<Row>, n: int, j: int)
    requires n < |s|
  {
    forall p, q :: 0 <= p < q <= n && q != j ==> s[p].datetime <= s[q].datetime
  }

  /** `timeline.sort_values('datetime', inplace=True)`: the rows are put in
      non-decreasing timestamp order in place. Nothing is promised about the
      relative order of rows with equal timestamps (the default is not a
      stable sort). */
  method SortByDatetime(a: array<Row>)
    modifies a
    ensures SortedByDatetime(a[..])
    ensures multiset(a[..]) == multiset(old(a[..]))
  {
    var i := 0;
    while i < a.Length
      invariant 0 <= i <= a.Length
      invariant SortedPrefix(a[..], i)
      invariant multiset(a[..]) == multiset(old(a[..]))
    {
      InsertLast(a, i);
      i := i + 1;
    }
    assert SortedPrefix(a[..], a.Length);
  }

  /** One step of insertion sort: moves `a[i]` down into the sorted prefix `a[..i]`,
      permuting only `a[..i + 1]` and leaving the later rows where they were. */
  method InsertLast(a: array<Row>, i: int)
    requires 0 <= i < a.Length
    requires SortedPrefix(a[..], i)
    modifies a
    ensures SortedPrefix(a[..], i + 1)
    ensures multiset(a[..i + 1]) == multiset(old(a[..i + 1]))
    ensures a[i + 1..] == old(a[i + 1..])
    ensures multiset(a[..]) == multiset(old(a[..]))
  {
    ghost var orig := a[..];
    var j := i;
    while j > 0 && a[j - 1].datetime > a[j].datetime
      invariant 0 <= j <= i
      invariant SortedExcept(a[..], i, j)
      invariant multiset(a[..i + 1]) == multiset(orig[..i + 1])
      invariant a[i + 1..] == orig[i + 1..]
    {
      SwapStep(a[..], i, j);
      SwapDown(a, j);
      j := j - 1;
    }
    GapClosed(a[..], i, j);
    PermutedPrefix(orig, a[..], i + 1);
  }

  /** Exchanges `a[j - 1]` and `a[j]`. */
  method SwapDown(a: array<Row>, j: int)
    requires 0 < j < a.Length
    modifies a
    ensures a[..] == old(a[..])[j - 1 := old(a[j])][j := old(a[j - 1])]
  {
    a[j - 1], a[j] := a[j], a[j - 1];
  }

  /** Permuting a prefix and keeping the rest permutes the whole sequence. */
  lemma PermutedPrefix<T>(s: seq<T>, t: seq<T>, n: nat)
    requires n <= |s| && n <= |t|
    requires multiset(t[..n]) == multiset(s[..n]) && t[n..] == s[n..]
    ensures multiset(t) == multiset(s)
  {
    SplitMultiset(s, n);
    SplitMultiset(t, n);
  }

  /** Once the moved row is no earlier than its left neighbour, the prefix is sorted. */
  lemma GapClosed(s: seq<Row>, n: int, j: int)
    requires 0 <= j <= n < |s|
    requires SortedExcept(s, n, j)
    requires j == 0 || s[j - 1].datetime <= s[j].datetime
    ensures SortedPrefix(s, n + 1)
  {
  }

  /** Swapping the out-of-order pair at `j - 1`, `j` moves the gap down by one,
      permutes only `s[..n + 1]` and leaves the rest alone. */
  lemma SwapStep(s: seq<Row>, n: int, j: int)
    requires 0 < j <= n < |s|
    requires SortedExcept(s, n, j) && s[j - 1].datetime > s[j].datetime
    ensures var t := s[j - 1 := s[j]][j := s[j - 1]];
      SortedExcept(t, n, j - 1) &&
      multiset(t[..n + 1]) == multiset(s[..n + 1]) &&
      t[n + 1..] == s[n + 1..]
  {
    SwapPermutes(s, j - 1, n + 1);
  }

  /** Swapping two neighbours below `n` keeps the multiset of the first `n` elements. */
  lemma SwapPermutes<T>(s: seq<T>, k: nat, n: nat)
    requires k + 1 < n <= |s|
    ensures multiset(s[k := s[k + 1]][k + 1 := s[k]][..n]) == multiset(s[..n])
  {
    var t := s[k := s[k + 1]][k + 1 := s[k]];
    assert s[..n] == s[..k] + [s[k], s[k + 1]] + s[k + 2..n];
    assert t[..n] == s[..k] + [s[k + 1], s[k]] + s[k + 2..n];
  }

  /** A sequence's multiset is that of its two halves. */
  lemma SplitMultiset<T>(s: seq<T>, n: nat)
    requires n <= |s|
    ensures multiset(s) == multiset(s[..n]) + multiset(s[n..])
  {
    assert s == s[..n] + s[n..];
  }

  lemma DatetimesConcat(x: Series, y: Series)
    ensures Datetimes(x + y) == Datetimes(x) + Datetimes(y)
  {
  }

  /** Rows with equal multisets have equal multisets of timestamps. */
  lemma {:induction false} DatetimesMultiset(a: Series, b: Series)
    requires multiset(a) == multiset(b)
    ensures multiset(Datetimes(a)) == multiset(Datetimes(b))
    decreases |a|
  {
    if a == [] {
      assert b == [] by { assert |multiset(b)| == 0; }
    } else {
      assert a[0] in multiset(b);
      var j :| 0 <= j < |b| && b[j] == a[0];
      var rest := b[..j] + b[j + 1..];
      assert b == b[..j] + [b[j]] + b[j + 1..];
      assert a == [a[0]] + a[1..];
      assert multiset(b) == multiset(b[..j]) + multiset{b[j]} + multiset(b[j + 1..]);
      assert multiset(a) == multiset{a[0]} + multiset(a[1..]);
      assert multiset(rest) == multiset(b[..j]) + multiset(b[j + 1..]);
      calc {
        multiset(rest);
        multiset(b) - multiset{a[0]};
        multiset(a) - multiset{a[0]};
        multiset(a[1..]);
      }
      DatetimesMultiset(a[1..], rest);
      DatetimesConcat([a[0]], a[1..]);
      DatetimesConcat(b[..j], b[j + 1..]);
      DatetimesConcat(b[..j] + [b[j]], b[j + 1..]);
      DatetimesConcat(b[..j], [b[j]]);
    }
  }

  /** Removing the same first element from two equal multisets leaves equal multisets. */
  lemma MultisetDropHead<T>(x: seq<T>, y: seq<T>)
    requires x != [] && y != [] && x[0] == y[0]
    requires multiset(x) == multiset(y)
    ensures multiset(x[1..]) == multiset(y[1..])
  {
    assert x == [x[0]] + x[1..] && y == [y[0]] + y[1..];
    calc {
      multiset(x[1..]);
      multiset(x) - multiset{x[0]};
      multiset(y) - multiset{y[0]};
      multiset(y[1..]);
    }
  }

  /** Two ascending sequences holding the same values start with the same one. */
  lemma AscendingHeads(x: seq<int>, y: seq<int>)
    requires Ascending(x) && Ascending(y) && x != [] && y != []
    requires multiset(x) == multiset(y)
    ensures x[0] == y[0]
  {
    assert x[0] in multiset(y) && y[0] in multiset(x);
    var k :| 0 <= k < |y| && y[k] == x[0];
    var m :| 0 <= m < |x| && x[m] == y[0];
    assert y[0] <= y[k] && x[0] <= x[m];
  }

  /** Two ascending sequences of the same values are equal. */
  lemma {:induction false} AscendingUnique(x: seq<int>, y: seq<int>)
    requires Ascending(x) && Ascending(y)
    requires multiset(x) == multiset(y)
    ensures x == y
    decreases |x|
  {
    if x == [] {
      assert y == [] by { assert |multiset(y)| == 0; }
    } else {
      assert y != [] by { assert |multiset(y)| == |x|; }
      AscendingHeads(x, y);
      MultisetDropHead(x, y);
      assert Ascending(x[1..]) && Ascending(y[1..]);
      AscendingUnique(x[1..], y[1..]);
      assert x == [x[0]] + x[1..] && y == [y[0]] + y[1..];
    }
  }

  /** Any two sorted orders of the same rows have the same timestamp column:
      the sort is determined up to the order of rows with equal timestamps. */
  lemma SortedPermutationsAgree(a: Series, b: Series)
    requires SortedByDatetime(a) && SortedByDatetime(b)
    requires multiset(a) == multiset(b)
    ensures Datetimes(a) == Datetimes(b)
  {
    DatetimesMultiset(a, b);
    AscendingUnique(Datetimes(a), Datetimes(b));
  }

  /** Sorting rows whose timestamps are already strictly increasing gives them
      back unchanged, whatever sort is used. */
  lemma SortIdempotent(a: Series, b: Series)
    requires forall i, j :: 0 <= i < j < |a| ==> a[i].datetime < a[j].datetime
    requires SortedByDatetime(b) && multiset(a) == multiset(b)
    ensures b == a
  {
    SortedPermutationsAgree(a, b);
    assert |a| == |b| by { assert |multiset(a)| == |multiset(b)|; }
    forall i | 0 <= i < |a| ensures a[i] == b[i] {
      assert a[i] in multiset(b);
      var j :| 0 <= j < |b| && b[j] == a[i];
      assert Datetimes(a)[j] == Datetimes(b)[j] && Datetimes(a)[i] == Datetimes(b)[i];
      assert a[j].datetime == a[i].datetime;
      assert j == i;
    }
  }

  // ---- the centred rolling mean ----

  predicate AllPresent(v: seq<Option<real>>)
  {
    forall i :: 0 <= i < |v| ==> v[i].Some?
  }

  /** The number of non-missing values (pandas' `nobs`). */
  function CountPresent(v: seq<Option<real>>): (n: nat)
    ensures n <= |v|
    ensures n == |v| <==> AllPresent(v)
  {
    if v == [] then 0
    else
      assert AllPresent(v) <==> v[0].Some? && AllPresent(v[1..]) by {
        assert forall i :: 0 < i < |v| ==> v[i] == v[1..][i - 1];
      }
      (if v[0].Some? then 1 else 0) + CountPresent(v[1..])
  }

  /** The sum of the non-missing values. */
  function SumPresent(v: seq<Option<real>>): real
  {
    if v == [] then 0.0
    else (match v[0] case Some(x) => x case None => 0.0) + SumPresent(v[1..])
  }

  function Clamp(x: int, lo: int, hi: int): (r: int)
    requires lo <= hi
    ensures lo <= r <= hi
  {
    if x < lo then lo else if x > hi then hi else x
  }

  /** pandas' `rolling(window=w, center=True).mean()` at index i, as its fixed
      window indexer computes it: the window ends (exclusive) at
      `i + 1 + (w - 1) // 2` and starts `w` before that, both clipped to the
      series; the mean is taken when at least `min_periods = w` values are
      present and there is at least one, otherwise the result is NaN. */
  function RollingMeanAt(v: seq<Option<real>>, i: int, w: nat): Option<real>
    requires 0 <= i < |v|
  {
    var offset := (w - 1) / 2;
    var end := Clamp(i + 1 + offset, 0, |v|);
    var start := Clamp(i + 1 + offset - w, 0, |v|);
    var window := v[start..end];
    var n := CountPresent(window);
    if n >= w && n > 0 then Some(SumPresent(window) / (n as real)) else None
  }

  function RollingMean(v: seq<Option<real>>, w: nat): (r: seq<Option<real>>)
    ensures |r| == |v|
  {
    seq(|v|, i requires 0 <= i < |v| => RollingMeanAt(v, i, w))
  }

  /** The centred window of width w: index i is defined exactly when the whole
      window `[i + 1 + (w - 1) / 2 - w, i + (w - 1) / 2]` lies inside the series and
      has no missing value; its value is then the plain mean of the w values.
      Partial windows are never averaged. */
  lemma RollingMeanAtFullWindow(v: seq<Option<real>>, i: int, w: nat)
    requires 0 <= i < |v| && w >= 1
    ensures var lo, hi := i + 1 + (w - 1) / 2 - w, i + 1 + (w - 1) / 2;
      RollingMeanAt(v, i, w) ==
        if 0 <= lo && hi <= |v| && AllPresent(v[lo..hi]) then Some(SumPresent(v[lo..hi]) / (w as real))
        else None
  {
  }

  /** For the dashboard's window of 30, index i averages `[i - 15, i + 14]`: it is
      defined exactly when `15 <= i <= N - 15` and those 30 values are present. */
  lemma RollingMean30(v: seq<Option<real>>, i: int)
    requires 0 <= i < |v|
    ensures RollingMean(v, 30)[i] ==
      if 15 <= i <= |v| - 15 && AllPresent(v[i - 15..i + 15]) then Some(SumPresent(v[i - 15..i + 15]) / 30.0)
      else None
  {
    assert (30 - 1) / 2 == 14;
    assert RollingMean(v, 30)[i] == RollingMeanAt(v, i, 30);
    RollingMeanAtFullWindow(v, i, 30);
    assert i + 1 + (30 - 1) / 2 - 30 == i - 15 && i + 1 + (30 - 1) / 2 == i + 15;
    assert (30 as real) == 30.0;
  }

  /** A series shorter than the window has no defined average. */
  lemma RollingMean30Short(v: seq<Option<real>>)
    requires |v| < 30
    ensures forall i :: 0 <= i < |v| ==> RollingMean(v, 30)[i] == None
  {
    forall i | 0 <= i < |v| ensures RollingMean(v, 30)[i] == None {
      RollingMean30(v, i);
    }
  }

  /** A complete series of 40 points is averaged at indices 15 to 25 only. */
  lemma RollingMean30Forty(v: seq<Option<real>>)
    requires |v| == 40 && AllPresent(v)
    ensures forall i :: 0 <= i < 40 ==> (RollingMean(v, 30)[i].Some? <==> 15 <= i <= 25)
  {
    forall i | 0 <= i < 40 ensures RollingMean(v, 30)[i].Some? <==> 15 <= i <= 25 {
      RollingMean30(v, i);
      if 15 <= i <= 25 {
        var w := v[i - 15..i + 15];
        assert forall k :: 0 <= k < 30 ==> w[k] == v[i - 15 + k];
      }
    }
  }

  /** Sums of values between lo and hi lie between n * lo and n * hi. */
  lemma {:induction false} SumPresentBounds(v: seq<Option<real>>, lo: real, hi: real)
    requires AllPresent(v)
    requires forall i :: 0 <= i < |v| ==> lo <= v[i].value <= hi
    ensures (|v| as real) * lo <= SumPresent(v) <= (|v| as real) * hi
  {
    if v != [] {
      SumPresentBounds(v[1..], lo, hi);
    }
  }

  /** Smoothing never leaves the range of the values it averages. */
  lemma RollingMeanWithinRange(v: seq<Option<real>>, i: int, lo: real, hi: real)
    requires 0 <= i < |v|
    requires forall k :: 0 <= k < |v| && v[k].Some? ==> lo <= v[k].value <= hi
    ensures RollingMean(v, 30)[i].Some? ==> lo <= RollingMean(v, 30)[i].value <= hi
  {
    RollingMean30(v, i);
    if 15 <= i <= |v| - 15 && AllPresent(v[i - 15..i + 15]) {
      SumPresentBounds(v[i - 15..i + 15], lo, hi);
    }
  }

  /** `calculate_moving_average(data, col_name, window_size=30)`: a copy of the
      series in which only the column `col` is replaced by its centred rolling
      mean; the series passed in is a value and is not changed. */
  function MovingAverage(s: Series, col: string, windowSize: nat := 30): (r: Series)
    requires HasColumn(s, col)
    ensures |r| == |s| && Datetimes(r) == Datetimes(s)
    ensures forall i :: 0 <= i < |s| ==> r[i].cells.Keys == s[i].cells.Keys
    ensures forall i, c :: 0 <= i < |s| && c in s[i].cells && c != col ==> r[i].cells[c] == s[i].cells[c]
    ensures HasColumn(r, col) && Column(r, col) == RollingMean(Column(s, col), windowSize)
  {
    var means := RollingMean(Column(s, col), windowSize);
    seq(|s|, i requires 0 <= i < |s| => s[i].(cells := s[i].cells[col := means[i]]))
  }

  /** The smoothed column of the dashboard's default window, index by index. */
  lemma MovingAverageAt(s: Series, col: string, i: int)
    requires HasColumn(s, col) && 0 <= i < |s|
    ensures var v := Column(s, col);
      MovingAverage(s, col)[i].cells[col] ==
        if 15 <= i <= |s| - 15 && AllPresent(v[i - 15..i + 15]) then Some(SumPresent(v[i - 15..i + 15]) / 30.0)
        else None
  {
    RollingMean30(Column(s, col), i);
  }
}
