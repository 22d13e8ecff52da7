/** The chart layout of the dashboard's output pane: every chart gets the
    palette colour at its position, and the charts are cut into rows of a
    fixed number of columns. */
module Multiview {
  import opened Wrappers

  /** Raised by the layout: `colors[n]` past the end of the palette, or a
      zero step given to `range`. */
  datatype ViewError = IndexError(index: int) | ValueError

  /** The ten colours of the palette, in order. */
  const BasePalette: seq<string> := [
    "#4c95d9", "#a8d9ff", "#ff6a6a", "#ffc4c4", "#69c7ba",
    "#a4f3bd", "#ffab4c", "#ffde96", "#9878d2", "#e1e5ec"]

  /** `s` repeated `n` times, as Python's `s * n`. */
  function Repeat<T>(s: seq<T>, n: nat): (r: seq<T>)
    ensures |r| == |s| * n
  {
    if n == 0 then [] else s + Repeat(s, n - 1)
  }

  /** The palette as the layout indexes it: the ten colours fifty times over. */
  const Colors: seq<string> := Repeat(BasePalette, 50)

  /** Entry `j` of the `k`-th copy of `s` in `Repeat(s, n)` is `s[j]`. */
  lemma {:induction false} RepeatAt<T>(s: seq<T>, n: nat, k: nat, j: nat)
    requires k < n && j < |s|
    ensures k * |s| + j < |Repeat(s, n)| && Repeat(s, n)[k * |s| + j] == s[j]
    decreases n
  {
    MulLe(k + 1, n, |s|);
    if k > 0 {
      RepeatAt(s, n - 1, k - 1, j);
      assert (k - 1) * |s| + j == k * |s| + j - |s|;
    }
  }

  /** The palette has 500 entries and cycles with period ten. */
  lemma PaletteCycles()
    ensures |Colors| == 500
    ensures forall n :: 0 <= n < 500 ==> Colors[n] == BasePalette[n % 10]
  {
    forall n | 0 <= n < 500 ensures Colors[n] == BasePalette[n % 10] {
      ColorAt(n);
    }
  }

  lemma ColorAt(n: int)
    requires 0 <= n < 500
    ensures |Colors| == 500 && Colors[n] == BasePalette[n % 10]
  {
    var q, r := n / 10, n % 10;
    assert n == q * 10 + r && 0 <= q < 50 && 0 <= r < 10;
    RepeatAt(BasePalette, 50, q, r);
  }

  /** The colour of the chart at position `n`; `colors[n]` raises
      `IndexError` from position 500 on. */
  function ChartColor(n: nat): (r: Result<string, ViewError>)
    ensures r.Success? <==> n < 500
    ensures r.Success? ==> r.value == BasePalette[n % 10]
    ensures r.Failure? ==> r.error == IndexError(n)
  {
    PaletteCycles();
    if n < |Colors| then Success(Colors[n]) else Failure(IndexError(n))
  }

  // ---------------------------------------------------------------------
  // Rows of charts

  lemma MulLe(a: int, b: int, n: int)
    requires n > 0 && a <= b
    ensures a * n <= b * n
  {
    var d := b - a;
    assert b * n == a * n + d * n;
  }

  /** Euclidean division has one quotient. */
  lemma DivUnique(a: int, n: int, q: int, r: int)
    requires n > 0 && 0 <= r < n && a == q * n + r
    ensures a / n == q
  {
    var q2, r2 := a / n, a % n;
    assert a == q2 * n + r2;
    if q2 > q {
      MulLe(q + 1, q2, n);
    } else if q2 < q {
      MulLe(q2 + 1, q, n);
    }
  }

  function Min(a: int, b: int): int {
    if a <= b then a else b
  }

  /** `s` cut into consecutive slices of `n` elements, the last one possibly
      shorter: the slices `s[i:i + n]` for `i` in `range(0, len(s), n)`. */
  function Chunks<T>(s: seq<T>, n: nat): seq<seq<T>>
    requires n > 0
    decreases |s|
  {
    if |s| == 0 then [] else [s[..Min(n, |s|)]] + Chunks(s[Min(n, |s|)..], n)
  }

  function Flatten<T>(ss: seq<seq<T>>): seq<T> {
    if |ss| == 0 then [] else ss[0] + Flatten(ss[1..])
  }

  /** Joining the rows back together gives the charts, in order. */
  lemma {:induction false} ChunksFlatten<T>(s: seq<T>, n: nat)
    requires n > 0
    ensures Flatten(Chunks(s, n)) == s
    decreases |s|
  {
    if |s| > 0 {
      var k := Min(n, |s|);
      var c := Chunks(s, n);
      assert c[0] == s[..k] && c[1..] == Chunks(s[k..], n);
      ChunksFlatten(s[k..], n);
      assert s[..k] + s[k..] == s;
    }
  }

  /** Every row is non-empty and holds at most `n` charts, and every row but
      the last holds exactly `n`. */
  lemma {:induction false} ChunksShape<T>(s: seq<T>, n: nat)
    requires n > 0
    ensures forall i :: 0 <= i < |Chunks(s, n)| ==> 0 < |Chunks(s, n)[i]| <= n
    ensures forall i :: 0 <= i < |Chunks(s, n)| - 1 ==> |Chunks(s, n)[i]| == n
    decreases |s|
  {
    if |s| > 0 {
      var k := Min(n, |s|);
      var c := Chunks(s, n);
      var rest := Chunks(s[k..], n);
      assert c == [s[..k]] + rest;
      ChunksShape(s[k..], n);
      if |rest| > 0 {
        assert |s[k..]| > 0;
        assert k == n;
      }
      forall i | 0 <= i < |c| ensures 0 < |c[i]| <= n && (i < |c| - 1 ==> |c[i]| == n) {
        if i > 0 { assert c[i] == rest[i - 1]; }
      }
    }
  }

  /** There are `ceil(|s| / n)` rows, so none for no charts. */
  lemma {:induction false} ChunksCount<T>(s: seq<T>, n: nat)
    requires n > 0
    ensures |Chunks(s, n)| == (|s| + n - 1) / n
    decreases |s|
  {
    if |s| > 0 {
      var k := Min(n, |s|);
      ChunksCount(s[k..], n);
      if |s| <= n {
        DivUnique(|s| + n - 1, n, 1, |s| - 1);
      } else {
        var q, r := (|s| - 1) / n, (|s| - 1) % n;
        assert |s| + n - 1 == (q + 1) * n + r;
        DivUnique(|s| + n - 1, n, q + 1, r);
      }
    }
  }

  /** The rows from position `i` on begin with the slice starting at `i`. */
  lemma ChunksFrom<T>(s: seq<T>, i: int, n: nat)
    requires 0 <= i < |s| && n > 0
    ensures Chunks(s[i..], n) == [s[i..Min(i + n, |s|)]] + Chunks(s[Min(i + n, |s|)..], n)
  {
    var j := Min(i + n, |s|);
    var t := s[i..];
    assert t[..j - i] == s[i..j] && t[j - i..] == s[j..];
  }

  /** The generator that cuts the charts into rows of `size`: `range(0,
      len(lst), size)` raises `ValueError` for a zero step and is empty for a
      negative one. */
  method ChunkCharts<T>(lst: seq<T>, size: int) returns (r: Result<seq<seq<T>>, ViewError>)
    ensures size == 0 ==> r == Failure(ValueError)
    ensures size < 0 ==> r == Success([])
    ensures size > 0 ==> r == Success(Chunks(lst, size))
  {
    if size == 0 {
      return Failure(ValueError);
    }
    var rows: seq<seq<T>> := [];
    var i := 0;
    while i < |lst| && size > 0
      invariant 0 <= i
      invariant size > 0 ==> rows + Chunks(lst[Min(i, |lst|)..], size) == Chunks(lst, size)
      invariant size < 0 ==> rows == []
      decreases |lst| - i
    {
      var j := Min(i + size, |lst|);
      ChunksFrom(lst, i, size);
      rows := rows + [lst[i..j]];
      i := i + size;
      assert Min(i, |lst|) == j;
    }
    if size > 0 {
      assert lst[Min(i, |lst|)..] == [];
      assert rows + Chunks(lst[Min(i, |lst|)..], size) == rows;
    }
    return Success(rows);
  }

  /** The layout of `create_dynamic_multiview`: each chart paired with the
      palette entry at its position (failing at the first position past the
      palette), then cut into rows of `cols`. */
  function Layout<T>(charts: seq<T>, cols: int): (r: Result<seq<seq<(T, string)>>, ViewError>)
    ensures r.Failure? <==> |charts| > 500 || cols == 0
    ensures |charts| > 500 ==> r == Failure(IndexError(500))
    ensures |charts| <= 500 && cols == 0 ==> r == Failure(ValueError)
    ensures |charts| <= 500 && cols < 0 ==> r == Success([])
  {
    if |charts| > |Colors| then
      PaletteCycles();
      Failure(IndexError(|Colors|))
    else if cols == 0 then Failure(ValueError)
    else if cols < 0 then Success([])
    else Success(Chunks(seq(|charts|, i requires 0 <= i < |charts| => (charts[i], Colors[i])), cols))
  }

  /** Read row by row, the layout holds every chart once, in order, each with
      the colour at its position, in rows of `cols` but the last. */
  lemma LayoutRows<T>(charts: seq<T>, cols: int)
    requires |charts| <= 500 && cols > 0
    ensures Layout(charts, cols).Success?
    ensures |Flatten(Layout(charts, cols).value)| == |charts|
    ensures forall i :: 0 <= i < |charts| ==>
      Flatten(Layout(charts, cols).value)[i] == (charts[i], BasePalette[i % 10])
    ensures |Layout(charts, cols).value| == (|charts| + cols - 1) / cols
    ensures forall i :: 0 <= i < |Layout(charts, cols).value| ==>
      0 < |Layout(charts, cols).value[i]| <= cols
    ensures forall i :: 0 <= i < |Layout(charts, cols).value| - 1 ==>
      |Layout(charts, cols).value[i]| == cols
  {
    PaletteCycles();
    var colored := seq(|charts|, i requires 0 <= i < |charts| => (charts[i], Colors[i]));
    assert Layout(charts, cols) == Success(Chunks(colored, cols));
    ChunksFlatten(colored, cols);
    ChunksCount(colored, cols);
    ChunksShape(colored, cols);
  }
}
