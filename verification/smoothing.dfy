/** The moving-average smoothing at the top of `plot_data` (lines 31-43):
    `np.convolve(x, ones(w), 'same') / np.convolve(ones(len(x)), ones(w), 'same')`,
    computed over exact reals. */
module Smoothing {
  import opened Wrappers
  import opened Errors
  import Frames

  /** `x[m]` inside the series and 0 outside it (the zero padding of a
      full convolution). */
  function At(x: seq<real>, m: int): real {
    if 0 <= m < |x| then x[m] else 0.0
  }

  /** Entry `k` of the full convolution of `x` with `ones(j)`:
      the sum of `x[k - t]` for `0 <= t < j`. */
  function KernelSum(x: seq<real>, k: int, j: nat): real {
    if j == 0 then 0.0 else KernelSum(x, k, j - 1) + At(x, k - (j - 1))
  }

  /** `np.convolve(x, ones(w), 'same')` when `len(x) >= w`: the full
      convolution sampled from index `(w - 1) / 2` on, `len(x)` entries. */
  function ConvolveSame(x: seq<real>, w: nat): (c: seq<real>)
    requires 1 <= w <= |x|
    ensures |c| == |x|
    ensures forall i :: 0 <= i < |x| ==> c[i] == KernelSum(x, i + (w - 1) / 2, w)
  {
    seq(|x|, i requires 0 <= i < |x| => KernelSum(x, i + (w - 1) / 2, w))
  }

  function Ones(n: nat): (o: seq<real>)
    ensures |o| == n && forall i :: 0 <= i < n ==> o[i] == 1.0
  {
    seq(n, _ => 1.0)
  }

  // ---------------------------------------------------------------
  // Reference definition: the mean over the truncated window

  /** `x[a] + ... + x[b - 1]`. */
  function Sum(x: seq<real>, a: int, b: int): real
    requires 0 <= a <= b <= |x|
    decreases b - a
  {
    if a == b then 0.0 else x[a] + Sum(x, a + 1, b)
  }

  /** First index of the window of width `w` around `i`, clipped to 0. */
  function WindowStart(w: nat, i: int): int {
    if i - w / 2 < 0 then 0 else i - w / 2
  }

  /** One past the last index of that window, clipped to `n`: the window
      reaches `(w + 1) / 2 - 1` to the right, one less than to the left
      when `w` is even. */
  function WindowEnd(n: nat, w: nat, i: int): int {
    if i + (w + 1) / 2 > n then n else i + (w + 1) / 2
  }

  ghost function WindowMean(x: seq<real>, w: nat, i: int): real
    requires 1 <= w && 0 <= i < |x|
  {
    var a := WindowStart(w, i);
    var b := WindowEnd(|x|, w, i);
    Sum(x, a, b) / (b - a) as real
  }

  function Clamp(n: nat, m: int): int {
    if m < 0 then 0 else if m > n then n else m
  }

  /** A full-convolution entry is the sum of the part of its window that
      overlaps the series. */
  lemma {:induction false} KernelSumIsWindowSum(x: seq<real>, k: int, j: nat)
    ensures Clamp(|x|, k - j + 1) <= Clamp(|x|, k + 1)
    ensures KernelSum(x, k, j) == Sum(x, Clamp(|x|, k - j + 1), Clamp(|x|, k + 1))
  {
    var n := |x|;
    if j > 0 {
      KernelSumIsWindowSum(x, k, j - 1);
      var m := k - (j - 1);
      if 0 <= m < n {
        assert Clamp(n, m) == m && Clamp(n, m + 1) == m + 1;
      }
    }
  }

  lemma {:induction false} SumOfOnes(n: nat, a: int, b: int)
    requires 0 <= a <= b <= n
    ensures Sum(Ones(n), a, b) == (b - a) as real
    decreases b - a
  {
    if a < b {
      SumOfOnes(n, a + 1, b);
    }
  }

  /** The sampled window of entry `i` is exactly `[WindowStart, WindowEnd)`,
      and it holds `i` itself. */
  lemma SameWindow(n: nat, w: nat, i: int)
    requires 1 <= w <= n && 0 <= i < n
    ensures Clamp(n, i + (w - 1) / 2 - w + 1) == WindowStart(w, i)
    ensures Clamp(n, i + (w - 1) / 2 + 1) == WindowEnd(n, w, i)
    ensures WindowStart(w, i) <= i < WindowEnd(n, w, i)
  {
    assert (w - 1) / 2 - w + 1 == -(w / 2);
    assert (w - 1) / 2 + 1 == (w + 1) / 2;
  }

  /** numpy's `'same'` offset: entry `i` of `np.convolve(x, ones(w), 'same')`
      is the sum of `x` over `[i - w/2, i + ceil(w/2) - 1]`, clipped to the
      series, so an even window sits one place further left than right. */
  lemma ConvolveSameWindow(x: seq<real>, w: nat, i: int)
    requires 1 <= w <= |x| && 0 <= i < |x|
    ensures WindowStart(w, i) <= WindowEnd(|x|, w, i)
    ensures ConvolveSame(x, w)[i] == Sum(x, WindowStart(w, i), WindowEnd(|x|, w, i))
  {
    KernelSumIsWindowSum(x, i + (w - 1) / 2, w);
    SameWindow(|x|, w, i);
  }

  /** Entry `i` of the ones-series convolution counts the window. */
  lemma DenominatorCounts(n: nat, w: nat, i: int)
    requires 1 <= w <= n && 0 <= i < n
    ensures ConvolveSame(Ones(n), w)[i] == (WindowEnd(n, w, i) - WindowStart(w, i)) as real
    ensures ConvolveSame(Ones(n), w)[i] >= 1.0
  {
    KernelSumIsWindowSum(Ones(n), i + (w - 1) / 2, w);
    SameWindow(n, w, i);
    SumOfOnes(n, WindowStart(w, i), WindowEnd(n, w, i));
  }

  /** Lines 38-42 for one series with `1 <= w <= len(x)`: the normalised
      convolution is the mean of the truncated window around each entry. */
  function SmoothSeries(x: seq<real>, w: nat): (y: seq<real>)
    requires 1 <= w <= |x|
    ensures |y| == |x|
    ensures forall i :: 0 <= i < |x| ==> y[i] == WindowMean(x, w, i)
  {
    var num := ConvolveSame(x, w);
    var den := ConvolveSame(Ones(|x|), w);
    assert forall i :: 0 <= i < |x| ==> den[i] >= 1.0 && num[i] / den[i] == WindowMean(x, w, i) by {
      forall i | 0 <= i < |x|
        ensures den[i] >= 1.0 && num[i] / den[i] == WindowMean(x, w, i)
      {
        DenominatorCounts(|x|, w, i);
        KernelSumIsWindowSum(x, i + (w - 1) / 2, w);
        SameWindow(|x|, w, i);
      }
    }
    seq(|x|, i requires 0 <= i < |x| => num[i] / den[i])
  }

  /** A window of width one averages each entry with itself alone. */
  lemma WidthOneIsIdentity(x: seq<real>)
    requires 1 <= |x|
    ensures SmoothSeries(x, 1) == x
  {
    var y := SmoothSeries(x, 1);
    forall i | 0 <= i < |x| ensures y[i] == x[i] {
      assert WindowStart(1, i) == i && WindowEnd(|x|, 1, i) == i + 1;
      assert Sum(x, i, i + 1) == x[i] + Sum(x, i + 1, i + 1);
    }
  }

  /** Smoothing never leaves the range of the data: each output lies
      between a lower and an upper bound of the input. */
  lemma SmoothingStaysInRange(x: seq<real>, w: nat, lo: real, hi: real)
    requires 1 <= w <= |x|
    requires forall i :: 0 <= i < |x| ==> lo <= x[i] <= hi
    ensures forall i :: 0 <= i < |x| ==> lo <= SmoothSeries(x, w)[i] <= hi
  {
    forall i | 0 <= i < |x| ensures lo <= SmoothSeries(x, w)[i] <= hi {
      SameWindow(|x|, w, i);
      var a := WindowStart(w, i);
      var b := WindowEnd(|x|, w, i);
      SumBounds(x, a, b, lo, hi);
      var count := (b - a) as real;
      assert lo * count <= Sum(x, a, b) <= hi * count;
      assert SmoothSeries(x, w)[i] == Sum(x, a, b) / count;
      DivideBounds(Sum(x, a, b), count, lo, hi);
    }
  }

  lemma {:induction false} SumBounds(x: seq<real>, a: int, b: int, lo: real, hi: real)
    requires 0 <= a <= b <= |x|
    requires forall i :: 0 <= i < |x| ==> lo <= x[i] <= hi
    ensures lo * (b - a) as real <= Sum(x, a, b) <= hi * (b - a) as real
    decreases b - a
  {
    if a < b {
      SumBounds(x, a + 1, b, lo, hi);
      assert lo * (b - a) as real == lo + lo * (b - (a + 1)) as real;
      assert hi * (b - a) as real == hi + hi * (b - (a + 1)) as real;
    }
  }

  lemma DivideBounds(s: real, c: real, lo: real, hi: real)
    requires c > 0.0 && lo * c <= s <= hi * c
    ensures lo <= s / c <= hi
  {
    assert s / c * c == s;
  }

  // ---------------------------------------------------------------
  // Smoothing one column of one run

  predicate AllNumbers(cells: seq<Frames.Cell>) {
    forall i :: 0 <= i < |cells| ==> cells[i].Num?
  }

  function Reals(cells: seq<Frames.Cell>): (x: seq<real>)
    requires AllNumbers(cells)
    ensures |x| == |cells| && forall i :: 0 <= i < |x| ==> cells[i] == Frames.Num(x[i])
  {
    seq(|cells|, i requires 0 <= i < |cells| => cells[i].x)
  }

  function Numbers(x: seq<real>): (cells: seq<Frames.Cell>)
    ensures |cells| == |x| && forall i :: 0 <= i < |x| ==> cells[i] == Frames.Num(x[i])
  {
    seq(|x|, i requires 0 <= i < |x| => Frames.Num(x[i]))
  }

  /** Lines 39-43 for one run: `datum[value] = smoothed`, in place. With
      `smooth <= 1` nothing happens. Otherwise a missing column, an empty
      series, a column of strings, or a series shorter than the window
      (whose 'same' convolution is `smooth` long and cannot be assigned
      back) raise. */
  function SmoothColumn(f: Frames.Frame, value: string, smooth: int): (r: Result<Frames.Frame, Error>)
    requires Frames.WellFormed(f)
    ensures smooth <= 1 ==> r == Success(f)
    ensures smooth > 1 && !Frames.Has(f, value) ==> r == Failure(MissingColumn(value))
    ensures smooth > 1 && Frames.Has(f, value) ==>
      var k := Frames.Find(f.columns, value);
      var cells := f.columns[k].cells;
      && (|cells| == 0 ==> r == Failure(EmptySeries))
      && (|cells| > 0 && !AllNumbers(cells) ==> r == Failure(NonNumericColumn(value)))
      && (|cells| > 0 && AllNumbers(cells) && |cells| < smooth ==>
            r == Failure(LengthMismatch(|cells|, smooth)))
      && (|cells| >= smooth && AllNumbers(cells) ==>
            && r.Success?
            && Frames.WellFormed(r.value)
            && r.value.rows == f.rows
            && |r.value.columns| == |f.columns|
            && (forall j :: 0 <= j < |f.columns| && j != k ==> r.value.columns[j] == f.columns[j])
            && r.value.columns[k].name == value
            && AllNumbers(r.value.columns[k].cells)
            && var y := Reals(r.value.columns[k].cells);
               |y| == |cells| && forall i :: 0 <= i < |y| ==> y[i] == WindowMean(Reals(cells), smooth, i))
  {
    if smooth <= 1 then Success(f)
    else
      var cells :- Frames.Get(f, value);
      if |cells| == 0 then Failure(EmptySeries)
      else if !AllNumbers(cells) then Failure(NonNumericColumn(value))
      else if |cells| < smooth then Failure(LengthMismatch(|cells|, smooth))
      else
        var k := Frames.Find(f.columns, value);
        var smoothed := Numbers(SmoothSeries(Reals(cells), smooth));
        assert Reals(smoothed) == SmoothSeries(Reals(cells), smooth);
        Success(Frames.Frame(f.rows, f.columns[k := Frames.Column(value, smoothed)]))
  }

  /** Lines 39-43: every run, in the order given. Line 51 sorts a copy
      of the concatenated frame and discards it, so no reordering follows. */
  function SmoothAll(data: seq<Frames.Frame>, value: string, smooth: int): (r: Result<seq<Frames.Frame>, Error>)
    requires forall i :: 0 <= i < |data| ==> Frames.WellFormed(data[i])
    ensures r.Success? <==> forall i :: 0 <= i < |data| ==> SmoothColumn(data[i], value, smooth).Success?
    ensures r.Success? ==>
      && |r.value| == |data|
      && forall i :: 0 <= i < |data| ==> r.value[i] == SmoothColumn(data[i], value, smooth).value
    ensures r.Failure? ==>
      exists j :: 0 <= j < |data| && SmoothColumn(data[j], value, smooth) == Failure(r.error)
                  && forall i :: 0 <= i < j ==> SmoothColumn(data[i], value, smooth).Success?
  {
    TryMap(data, (f: Frames.Frame) requires Frames.WellFormed(f) => SmoothColumn(f, value, smooth))
  }
}
