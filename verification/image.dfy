/**
 * `src/lib/image.ts`: the size a photo is scaled to before it is drawn on a
 * canvas and re-encoded as JPEG. The pixels, the canvas and the JPEG encoder
 * are outside the model; the arithmetic and the rejection paths are in it.
 */
module ImageResize {
  import opened Wrappers

  const ApiMaxSize: nat := 1600
  const ThumbnailMaxSize: nat := 300

  const FileReadError := "ファイルの読み込みに失敗しました"
  const ImageLoadError := "画像の読み込みに失敗しました"
  const NoCanvasError := "Canvas context not available"

  datatype Size = Size(width: nat, height: nat)

  /** Both sides are at most `maxSize`. */
  predicate FitsIn(s: Size, maxSize: nat) {
    s.width <= maxSize && s.height <= maxSize
  }

  /**
   * `Math.round(a / b)` for non-negative `a` and positive `b`: the nearest
   * integer, halves rounded up.
   */
  function RoundDiv(a: nat, b: nat): (r: nat)
    requires b > 0
    ensures 2 * (r * b) <= 2 * a + b < 2 * (r * b) + 2 * b
  {
    (2 * a + b) / (2 * b)
  }

  /**
   * The size `resizeImage` gives the canvas: unchanged when the photo already
   * fits, otherwise the longer side (the width only when strictly longer)
   * becomes `maxSize` and the other is scaled and rounded.
   */
  function FitWithin(s: Size, maxSize: nat): (r: Size)
    ensures FitsIn(r, maxSize)
    ensures FitsIn(s, maxSize) ==> r == s
    ensures !FitsIn(s, maxSize) && s.width > s.height ==> r.width == maxSize
    ensures !FitsIn(s, maxSize) && s.width <= s.height ==> r.height == maxSize
    ensures s.width > s.height ==> r.width >= r.height
    ensures s.width <= s.height ==> r.width <= r.height
  {
    if s.width > maxSize || s.height > maxSize then
      if s.width > s.height then
        var h := RoundDiv(s.height * maxSize, s.width);
        ScaledShorterSide(s.height, s.width, maxSize);
        Size(maxSize, h)
      else
        var w := RoundDiv(s.width * maxSize, s.height);
        ScaledShorterSide(s.width, s.height, maxSize);
        Size(w, maxSize)
    else
      s
  }

  /** Multiplication by a non-negative factor is monotone. */
  lemma MulMonotone(x: int, y: int, k: nat)
    requires x <= y
    ensures k * x <= k * y
  {
    assert k * y - k * x == k * (y - x);
  }

  /** A quotient is determined by the interval its dividend falls in. */
  lemma DivBetween(x: nat, d: nat, q: nat)
    requires d > 0 && d * q <= x < d * q + d
    ensures x / d == q
  {
    var r := x / d;
    assert d * r <= x < d * r + d;
    if r < q {
      MulMonotone(r + 1, q, d);
    } else if r > q {
      MulMonotone(q + 1, r, d);
    }
  }

  /** Scaling the shorter side by `maxSize / long` keeps it at most `maxSize`. */
  lemma {:induction false} ScaledShorterSide(short: nat, long: nat, maxSize: nat)
    requires 0 < long && short <= long
    ensures RoundDiv(short * maxSize, long) <= maxSize
  {
    var r := RoundDiv(short * maxSize, long);
    MulMonotone(short, long, maxSize);
    assert 2 * (r * long) < 2 * (maxSize * long) + 2 * long;
    if r > maxSize {
      MulMonotone(maxSize + 1, r, 2 * long);
    }
  }

  /**
   * The scaled side keeps the aspect ratio up to rounding: it differs from
   * the exact value `side * maxSize / long` by at most one half.
   */
  lemma FitKeepsRatio(s: Size, maxSize: nat)
    requires !FitsIn(s, maxSize)
    ensures s.width > s.height ==>
              var err: int := FitWithin(s, maxSize).height * s.width - s.height * maxSize;
              -(s.width as int) < 2 * err <= s.width
    ensures s.width <= s.height ==>
              var err: int := FitWithin(s, maxSize).width * s.height - s.width * maxSize;
              -(s.height as int) < 2 * err <= s.height
  {
    var r := FitWithin(s, maxSize);
    if s.width > s.height {
      assert r.height == RoundDiv(s.height * maxSize, s.width);
    } else {
      assert r.width == RoundDiv(s.width * maxSize, s.height);
    }
  }

  /** Fitting twice is fitting once. */
  lemma FitIdempotent(s: Size, maxSize: nat)
    ensures FitWithin(FitWithin(s, maxSize), maxSize) == FitWithin(s, maxSize)
  {
  }

  /**
   * `resizeImage`: the file is read, decoded as an image and drawn on a 2D
   * canvas; each stage can fail, and the first failure rejects the promise
   * with its message. On success the result is the canvas size (the JPEG data
   * URL drawn at that size is not modelled).
   */
  function ResizeImage(fileRead: bool, imageLoaded: bool, hasContext: bool,
                       s: Size, maxSize: nat): (r: Result<Size, string>)
    ensures r.Success? <==> fileRead && imageLoaded && hasContext
    ensures !fileRead ==> r == Failure(FileReadError)
    ensures fileRead && !imageLoaded ==> r == Failure(ImageLoadError)
    ensures fileRead && imageLoaded && !hasContext ==> r == Failure(NoCanvasError)
    ensures r.Success? ==> r.value == FitWithin(s, maxSize)
  {
    if !fileRead then Failure(FileReadError)
    else if !imageLoaded then Failure(ImageLoadError)
    else if !hasContext then Failure(NoCanvasError)
    else Success(FitWithin(s, maxSize))
  }

  /** `compressForApi`: longer side at most 1600 pixels. */
  function CompressForApi(fileRead: bool, imageLoaded: bool, hasContext: bool, s: Size): (r: Result<Size, string>)
    ensures r.Success? <==> fileRead && imageLoaded && hasContext
    ensures r.Failure? ==> r == ResizeImage(fileRead, imageLoaded, hasContext, s, ApiMaxSize)
    ensures r.Success? ==> r.value == FitWithin(s, ApiMaxSize)
    ensures r.Success? ==> FitsIn(r.value, ApiMaxSize)
  {
    ResizeImage(fileRead, imageLoaded, hasContext, s, ApiMaxSize)
  }

  /** `compressForThumbnail`: longer side at most 300 pixels. */
  function CompressForThumbnail(fileRead: bool, imageLoaded: bool, hasContext: bool, s: Size): (r: Result<Size, string>)
    ensures r.Success? <==> fileRead && imageLoaded && hasContext
    ensures r.Failure? ==> r == ResizeImage(fileRead, imageLoaded, hasContext, s, ThumbnailMaxSize)
    ensures r.Success? ==> r.value == FitWithin(s, ThumbnailMaxSize)
    ensures r.Success? ==> FitsIn(r.value, ThumbnailMaxSize)
  {
    ResizeImage(fileRead, imageLoaded, hasContext, s, ThumbnailMaxSize)
  }

  /**
   * The two variants differ only in the bound: a photo of 1000x800 is sent
   * to the model unchanged but shrunk to 300x240 for the thumbnail.
   */
  lemma ApiAndThumbnailDiffer()
    ensures CompressForApi(true, true, true, Size(1000, 800)) == Success(Size(1000, 800))
    ensures CompressForThumbnail(true, true, true, Size(1000, 800)) == Success(Size(300, 240))
  {
  }

  /** A landscape 4000x3000 photo is sent to the model at 1600x1200. */
  lemma LandscapePhotoForApi()
    ensures FitWithin(Size(4000, 3000), ApiMaxSize) == Size(1600, 1200)
  {
  }

  /** A square photo larger than the bound becomes a square of the bound. */
  lemma SquareStaysSquare(side: nat, maxSize: nat)
    requires side > maxSize
    ensures FitWithin(Size(side, side), maxSize) == Size(maxSize, maxSize)
  {
    DivBetween(2 * (side * maxSize) + side, 2 * side, maxSize);
  }
}
