/** Conservative smoothing (`conservative_smoother`): each pixel is clamped
    into the range of the odd-sized window around it in the edge-padded
    image. */
module Conservative {
  import opened Wrappers
  import opened Grids

  /** The `ValueError`s `conservative_smoother` raises: an even kernel size
      (its own check), and from `np.pad` in edge mode a negative pad width or an empty
      axis that would have to be extended. */
  datatype SmoothError = EvenKernel | NegativePad | EmptyAxis

  // ---------------------------------------------------------------------
  // Edge padding

  /** `np.pad(img, k, mode='edge')`: entry `(i, j)` of the padded image is
      the image pixel nearest to `(i - k, j - k)`. */
  function Pad(img: seq<seq<int>>, k: nat): (p: seq<seq<int>>)
    requires IsGrid(img) && |img| >= 1 && Width(img) >= 1
    ensures |p| == |img| + 2 * k && Width(p) == Width(img) + 2 * k && IsGrid(p)
  {
    seq(|img| + 2 * k, i requires 0 <= i < |img| + 2 * k =>
      seq(Width(img) + 2 * k, j requires 0 <= j < Width(img) + 2 * k =>
        img[Clip(i - k, 0, |img| - 1)][Clip(j - k, 0, Width(img) - 1)]))
  }

  /** Looking up one entry of the padded image. */
  lemma PadAt(img: seq<seq<int>>, k: nat, i: nat, j: nat)
    requires IsGrid(img) && |img| >= 1 && Width(img) >= 1
    requires i < |img| + 2 * k && j < Width(img) + 2 * k
    ensures Pad(img, k)[i][j] == img[Clip(i - k, 0, |img| - 1)][Clip(j - k, 0, Width(img) - 1)]
  {
  }

  /** One axis padded by repeating its first and last element `k` times. */
  function EdgeExtend<T>(s: seq<T>, k: nat): (r: seq<T>)
    requires |s| >= 1
    ensures |r| == |s| + 2 * k
  {
    seq(k, _ => s[0]) + s + seq(k, _ => s[|s| - 1])
  }

  /** Edge padding done the way it is usually described: every row is
      extended on the left and right, then the first and last rows are
      repeated above and below. */
  function PadByAxes(img: seq<seq<int>>, k: nat): seq<seq<int>>
    requires IsGrid(img) && |img| >= 1 && Width(img) >= 1
  {
    EdgeExtend(seq(|img|, i requires 0 <= i < |img| => EdgeExtend(img[i], k)), k)
  }

  /** Position `i` of an extended axis holds the element nearest to `i - k`. */
  lemma EdgeExtendAt<T>(s: seq<T>, k: nat, i: int)
    requires |s| >= 1 && 0 <= i < |s| + 2 * k
    ensures EdgeExtend(s, k)[i] == s[Clip(i - k, 0, |s| - 1)]
  {
    var e := EdgeExtend(s, k);
    if i < k {
      assert e[i] == seq(k, _ => s[0])[i];
    } else if i < k + |s| {
      assert e[i] == s[i - k];
    } else {
      assert e[i] == seq(k, _ => s[|s| - 1])[i - k - |s|];
    }
  }

  /** The nearest-pixel formula and replication axis by axis pad alike. */
  lemma PadIsEdgeReplication(img: seq<seq<int>>, k: nat)
    requires IsGrid(img) && |img| >= 1 && Width(img) >= 1
    ensures PadByAxes(img, k) == Pad(img, k)
  {
    var rows := seq(|img|, i requires 0 <= i < |img| => EdgeExtend(img[i], k));
    var a, b := PadByAxes(img, k), Pad(img, k);
    forall i, j | 0 <= i < |img| + 2 * k && 0 <= j < Width(img) + 2 * k
      ensures a[i][j] == b[i][j]
    {
      var ci := Clip(i - k, 0, |img| - 1);
      EdgeExtendAt(rows, k, i);
      EdgeExtendAt(img[ci], k, j);
    }
    forall i | 0 <= i < |img| + 2 * k
      ensures a[i] == b[i]
    {
      EdgeExtendAt(rows, k, i);
    }
  }

  // ---------------------------------------------------------------------
  // Windows and their extremes

  /** The first `n` rows of the `k x k` window of `p` whose top-left corner
      is `(r, c)`, flattened row after row. */
  function Window(p: seq<seq<int>>, r: nat, c: nat, k: nat, n: nat): (w: seq<int>)
    requires IsGrid(p) && r + k <= |p| && c + k <= Width(p) && n <= k
    ensures k >= 1 ==> |w| >= n
    decreases n
  {
    if n == 0 then [] else Window(p, r, c, k, n - 1) + p[r + n - 1][c..c + k]
  }

  /** Every pixel of the window's rows is one of its elements. */
  lemma {:induction false} WindowContains(p: seq<seq<int>>, r: nat, c: nat, k: nat, n: nat, i: nat, j: nat)
    requires IsGrid(p) && r + k <= |p| && c + k <= Width(p) && n <= k
    requires i < n && j < k
    ensures p[r + i][c + j] in Window(p, r, c, k, n)
    decreases n
  {
    var last := p[r + n - 1][c..c + k];
    if i == n - 1 {
      assert last[j] == p[r + i][c + j];
      assert p[r + i][c + j] in last;
    } else {
      WindowContains(p, r, c, k, n - 1, i, j);
    }
  }

  function Min(a: int, b: int): int {
    if a <= b then a else b
  }

  function Max(a: int, b: int): int {
    if a >= b then a else b
  }

  /** `np.min` of a non-empty sequence, folding from the back. */
  function SeqMin(s: seq<int>): int
    requires |s| >= 1
  {
    if |s| == 1 then s[0] else Min(SeqMin(s[..|s| - 1]), s[|s| - 1])
  }

  /** `np.max` of a non-empty sequence, folding from the back. */
  function SeqMax(s: seq<int>): int
    requires |s| >= 1
  {
    if |s| == 1 then s[0] else Max(SeqMax(s[..|s| - 1]), s[|s| - 1])
  }

  /** The minimum is at most every element and is one of them. */
  lemma {:induction false} SeqMinIsLeast(s: seq<int>, x: int)
    requires |s| >= 1 && x in s
    ensures SeqMin(s) <= x
    ensures SeqMin(s) in s
  {
    if |s| > 1 {
      var init := s[..|s| - 1];
      if x in init {
        SeqMinIsLeast(init, x);
      } else {
        SeqMinIsLeast(init, init[0]);
      }
      assert forall y :: y in init ==> y in s;
    }
  }

  /** The maximum is at least every element and is one of them. */
  lemma {:induction false} SeqMaxIsGreatest(s: seq<int>, x: int)
    requires |s| >= 1 && x in s
    ensures x <= SeqMax(s)
    ensures SeqMax(s) in s
  {
    if |s| > 1 {
      var init := s[..|s| - 1];
      if x in init {
        SeqMaxIsGreatest(init, x);
      } else {
        SeqMaxIsGreatest(init, init[0]);
      }
      assert forall y :: y in init ==> y in s;
    }
  }

  // ---------------------------------------------------------------------
  // The smoother

  /** The clamp applied to one pixel: below the window's minimum it is
      raised to it, above the maximum lowered to it, otherwise kept. */
  function ClampPixel(centre: int, lo: int, hi: int): (v: int)
    ensures lo <= hi ==> lo <= v <= hi
    ensures v == centre <==> lo <= centre <= hi
    ensures centre < lo ==> v == lo
    ensures lo <= centre && hi < centre ==> v == hi
  {
    if centre < lo then lo else if centre > hi then hi else centre
  }

  /** The window of pixel `(r, c)`: rows `r .. r + size` and columns
      `c .. c + size` of the padded image. */
  function PixelWindow(img: seq<seq<int>>, size: int, r: nat, c: nat): (w: seq<int>)
    requires IsGrid(img) && size >= 1 && size % 2 == 1
    requires r < |img| && c < Width(img)
    ensures |w| >= 1
  {
    Window(Pad(img, size / 2), r, c, size, size)
  }

  /** The output pixel at `(r, c)`: the input pixel clamped into the range
      of its window. */
  function SmoothedPixel(img: seq<seq<int>>, size: int, r: nat, c: nat): int
    requires IsGrid(img) && size >= 1 && size % 2 == 1
    requires r < |img| && c < Width(img)
  {
    ClampPixel(img[r][c], SeqMin(PixelWindow(img, size, r, c)), SeqMax(PixelWindow(img, size, r, c)))
  }

  /** Row `r` of the smoothed image. */
  function SmoothedRow(img: seq<seq<int>>, size: int, r: nat): (row: seq<int>)
    requires IsGrid(img) && size >= 1 && size % 2 == 1 && r < |img|
    ensures |row| == Width(img)
  {
    seq(Width(img), c requires 0 <= c < Width(img) => SmoothedPixel(img, size, r, c))
  }

  /** The smoothed image for a valid odd kernel and a non-empty image. */
  function Smoothed(img: seq<seq<int>>, size: int): seq<seq<int>>
    requires IsGrid(img) && size >= 1 && size % 2 == 1
    requires |img| >= 1 && Width(img) >= 1
  {
    seq(|img|, r requires 0 <= r < |img| => SmoothedRow(img, size, r))
  }

  /** `conservative_smoother(img, size)`, with its `ValueError`s as failures. */
  function Smooth(img: seq<seq<int>>, size: int): Result<seq<seq<int>>, SmoothError>
    requires IsGrid(img)
  {
    if size % 2 == 0 then Failure(EvenKernel)
    else if size / 2 < 0 then Failure(NegativePad)
    else if |img| == 0 || Width(img) == 0 then
      if size / 2 > 0 then Failure(EmptyAxis) else Success(img)
    else Success(Smoothed(img, size))
  }

  /** Pixel `(r, c)` of the image is the centre of its own window. */
  lemma CentreInWindow(img: seq<seq<int>>, size: int, r: nat, c: nat)
    requires IsGrid(img) && size >= 1 && size % 2 == 1
    requires r < |img| && c < Width(img)
    ensures img[r][c] in PixelWindow(img, size, r, c)
  {
    var k := size / 2;
    var p := Pad(img, k);
    PadAt(img, k, r + k, c + k);
    WindowContains(p, r, c, size, size, k, k);
  }

  /** Every pixel already lies within the range of its window. */
  lemma CentreWithinWindow(img: seq<seq<int>>, size: int, r: nat, c: nat)
    requires IsGrid(img) && size >= 1 && size % 2 == 1
    requires r < |img| && c < Width(img)
    ensures SeqMin(PixelWindow(img, size, r, c)) <= img[r][c] <= SeqMax(PixelWindow(img, size, r, c))
  {
    CentreInWindow(img, size, r, c);
    SeqMinIsLeast(PixelWindow(img, size, r, c), img[r][c]);
    SeqMaxIsGreatest(PixelWindow(img, size, r, c), img[r][c]);
  }

  /** Neither clamp ever fires: whenever the smoother succeeds it returns
      its input unchanged. */
  lemma SmoothIsIdentity(img: seq<seq<int>>, size: int)
    requires IsGrid(img)
    ensures Smooth(img, size).Success? ==> Smooth(img, size).value == img
  {
    if size % 2 == 1 && size >= 1 && |img| >= 1 && Width(img) >= 1 {
      var s := Smoothed(img, size);
      forall r | 0 <= r < |img|
        ensures s[r] == img[r]
      {
        forall c | 0 <= c < Width(img)
          ensures s[r][c] == img[r][c]
        {
          CentreWithinWindow(img, size, r, c);
        }
      }
    }
  }

  /** Smoothing a smoothed image changes nothing. */
  lemma SmoothIdempotent(img: seq<seq<int>>, size: int)
    requires IsGrid(img)
    ensures Smooth(img, size).Success? ==> Smooth(Smooth(img, size).value, size) == Smooth(img, size)
  {
    SmoothIsIdentity(img, size);
  }

  /** The minimum and maximum of a window, by one pass over it. */
  method WindowExtremes(w: seq<int>) returns (lo: int, hi: int)
    requires |w| >= 1
    ensures lo == SeqMin(w) && hi == SeqMax(w)
  {
    lo, hi := w[0], w[0];
    var t := 1;
    while t < |w|
      invariant 1 <= t <= |w|
      invariant lo == SeqMin(w[..t]) && hi == SeqMax(w[..t])
    {
      assert w[..t + 1][..t] == w[..t];
      lo := Min(lo, w[t]);
      hi := Max(hi, w[t]);
      t := t + 1;
    }
    assert w[..t] == w;
  }

  /** `conservative_smoother`: copy the image, then visit every pixel and
      clamp it into the range of its window. */
  method ConservativeSmoother(img: seq<seq<int>>, size: int) returns (res: Result<seq<seq<int>>, SmoothError>)
    requires IsGrid(img)
    ensures res == Smooth(img, size)
    ensures res == Failure(EvenKernel) <==> size % 2 == 0
    ensures res == Failure(NegativePad) <==> size % 2 == 1 && size < 0
    ensures res == Failure(EmptyAxis) <==> size % 2 == 1 && size > 1 && (|img| == 0 || Width(img) == 0)
    ensures res.Success? ==> res.value == img
  {
    if size % 2 == 0 {
      return Failure(EvenKernel);
    }
    var k := size / 2;
    if k < 0 {
      return Failure(NegativePad);
    }
    var rows, cols := |img|, Width(img);
    if rows == 0 || cols == 0 {
      if k > 0 {
        return Failure(EmptyAxis);
      }
      return Success(img);
    }
    var out := img;
    var padded := Pad(img, k);
    var r := 0;
    while r < rows
      invariant 0 <= r <= rows
      invariant |out| == rows
      invariant forall i :: 0 <= i < r ==> out[i] == SmoothedRow(img, size, i)
      invariant forall i :: r <= i < rows ==> out[i] == img[i]
    {
      var row := out[r];
      var c := 0;
      while c < cols
        invariant 0 <= c <= cols
        invariant |row| == cols
        invariant forall j :: 0 <= j < c ==> row[j] == SmoothedPixel(img, size, r, j)
        invariant forall j :: c <= j < cols ==> row[j] == img[r][j]
      {
        var centre := img[r][c];
        var lo, hi := WindowExtremes(Window(padded, r, c, size, size));
        if centre < lo {
          row := row[c := lo];
        } else if centre > hi {
          row := row[c := hi];
        }
        c := c + 1;
      }
      out := out[r := row];
      r := r + 1;
    }
    assert out == Smoothed(img, size);
    SmoothIsIdentity(img, size);
    return Success(out);
  }
}
