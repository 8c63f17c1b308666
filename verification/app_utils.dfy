/**
  The shape-level decisions of `load_image` and `save_image` in app_utils.py.

  An image tensor is seen only through its shape. A library resize is seen only
  through its effect on that shape: the last two dimensions become the requested
  (height, width) pair and every other dimension is kept.
 */
module AppUtils {
  import opened Wrappers

  /** The literal that load_image compares against and scales to. */
  const MaxSide: int := 2048

  /** The `size` argument: omitted (None), a scalar, or a sequence of integers. */
  datatype SizeArg = Omitted | Scalar(n: int) | Items(xs: seq<int>)

  /** A requested (height, width) pair, as handed to the library resize. */
  datatype Pair = Pair(height: int, width: int)

  datatype Error =
    /** The assertion "'size' must either be a scalar or contain 2 items" failed. */
    | SizeNotPair(length: nat)
    /** The library resize refuses a tensor of fewer than two dimensions. */
    | NotAnImage(rank: nat)

  /** The (channel, height, width) shape of a decoded image. */
  datatype ImageShape = ImageShape(channels: int, height: int, width: int)

  /** A decoded tensor has no negative dimension. */
  predicate Decoded(image: ImageShape)
  {
    image.channels >= 0 && image.height >= 0 && image.width >= 0
  }

  function Min(a: int, b: int): int
  {
    if a <= b then a else b
  }

  // ---------------------------------------------------------------------------
  // Size-argument normalisation (load_image and save_image share it)
  // ---------------------------------------------------------------------------

  /**
    A scalar `s` stands for `(s, s)`; a sequence is taken as it is and must hold
    exactly two items. `None` means that no size was requested.
   */
  function NormalizeSize(size: SizeArg): (r: Result<Option<Pair>, Error>)
    ensures r.Err? <==> size.Items? && |size.xs| != 2
    ensures r == Ok(None) <==> size.Omitted?
  {
    match size
    case Omitted => Ok(None)
    case Scalar(s) => Ok(Some(Pair(s, s)))
    case Items(xs) =>
      if |xs| == 2 then Ok(Some(Pair(xs[0], xs[1]))) else Err(SizeNotPair(|xs|))
  }

  // ---------------------------------------------------------------------------
  // The automatic downscale target
  // ---------------------------------------------------------------------------

  /**
    The side that is not the longer one, after the longer side is scaled down to
    `limit`: `int(other / (longer / limit))`, read as the floor of
    `other * limit / longer` (see the README for why that reading is exact).
   */
  function ScaledSide(other: int, longer: int, limit: int): (o: int)
    requires 0 <= other <= longer && 0 < limit < longer
    ensures 0 <= o <= limit && o <= other
    ensures o * longer <= other * limit < (o + 1) * longer
    ensures o == 0 <==> other * limit < longer
  {
    FloorOfQuotient(other, longer, limit);
    other * limit / longer
  }

  /** Helper: the facts about `other * limit / longer` that ScaledSide promises. */
  lemma FloorOfQuotient(other: int, longer: int, limit: int)
    requires 0 <= other <= longer && 0 < limit < longer
    ensures var o := other * limit / longer;
      && 0 <= o <= limit && o <= other
      && o * longer <= other * limit < (o + 1) * longer
      && (o == 0 <==> other * limit < longer)
  {
    var n := other * limit;
    MulMonotone(0, other, limit);
    FloorDivision(n, longer);
    var o := n / longer;
    MulMonotone(other, longer, limit);
    QuotientBelow(o, longer, n, limit);
    MulMonotone(limit, longer, other);
    QuotientBelow(o, longer, n, other);
  }

  /** Helper: Euclidean division of a non-negative number by a positive one. */
  lemma FloorDivision(n: int, d: int)
    requires n >= 0 && d > 0
    ensures 0 <= n / d && (n / d) * d <= n < (n / d + 1) * d
  {
    var q, r := n / d, n % d;
    assert n == q * d + r && 0 <= r < d;
    assert (q + 1) * d == q * d + d;
    if q < 0 {
      MulMonotone(q, -1, d);
      assert false;
    }
  }

  /** Helper: `q * d <= n <= m * d` with `d > 0` bounds `q` by `m`. */
  lemma QuotientBelow(q: int, d: int, n: int, m: int)
    requires d > 0 && q * d <= n <= m * d
    ensures q <= m
  {
    if q > m {
      MulMonotone(m + 1, q, d);
      assert false;
    }
  }

  /** Helper: multiplying by a non-negative factor keeps the order. */
  lemma MulMonotone(a: int, b: int, c: int)
    requires a <= b && c >= 0
    ensures a * c <= b * c
  {
  }

  /**
    The shape that the automatic downscale asks for, or None when neither side
    exceeds `limit`. The longer side becomes `limit`; a tie goes to the height.
   */
  function DownscaleTarget(height: int, width: int, limit: int): (t: Option<Pair>)
    requires height >= 0 && width >= 0 && limit > 0
    ensures t.None? <==> height <= limit && width <= limit
    ensures t.Some? ==>
      && 0 <= t.value.height <= limit && 0 <= t.value.width <= limit
      && (t.value.height == limit || t.value.width == limit)
      && t.value.height <= height && t.value.width <= width
  {
    if height > limit || width > limit then
      if height >= width then Some(Pair(limit, ScaledSide(width, height, limit)))
      else Some(Pair(ScaledSide(height, width, limit), limit))
    else
      None
  }

  // ---------------------------------------------------------------------------
  // load_image
  // ---------------------------------------------------------------------------

  /** The library resize of a (c, h, w) image: the spatial shape becomes `p`. */
  function Resize(image: ImageShape, p: Pair): (r: ImageShape)
    ensures r.channels == image.channels
    ensures r.height == p.height && r.width == p.width
  {
    image.(height := p.height, width := p.width)
  }

  /** `image[:3, :, :]`: keep at most the first three channels. */
  function StripAlpha(image: ImageShape): (r: ImageShape)
    requires image.channels >= 0
    ensures r.channels <= 3 && r.channels <= image.channels
    ensures image.channels <= 3 ==> r == image
    ensures image.channels >= 3 ==> r.channels == 3
    ensures r.height == image.height && r.width == image.width
  {
    image.(channels := Min(image.channels, 3))
  }

  /**
    Alpha removal as documented: the alpha channel of a grey-and-alpha (2) or
    colour-and-alpha (4) image is dropped; every other image is kept as it is.
   */
  function RemoveAlphaChannel(image: ImageShape): (r: ImageShape)
    requires image.channels >= 0
    ensures 1 <= image.channels <= 4 ==> r.channels == 1 || r.channels == 3
    ensures 1 <= image.channels <= 4 ==> (r.channels == 3 <==> image.channels >= 3)
    ensures image.channels - 1 <= r.channels <= image.channels
    ensures r.height == image.height && r.width == image.width
  {
    if image.channels == 2 || image.channels == 4 then image.(channels := image.channels - 1)
    else image
  }

  /**
    The resize step of load_image: to the normalised size when one is given,
    otherwise to the automatic downscale target against the literal MaxSide.
   */
  function LoadResize(image: ImageShape, size: SizeArg): (r: Result<ImageShape, Error>)
    requires Decoded(image)
    ensures r.Err? <==> size.Items? && |size.xs| != 2
    ensures r.Ok? ==> r.value.channels == image.channels
  {
    match NormalizeSize(size)
    case Err(e) => Err(e)
    case Ok(Some(p)) => Ok(Resize(image, p))
    case Ok(None) =>
      match DownscaleTarget(image.height, image.width, MaxSide)
      case None => Ok(image)
      case Some(p) => Ok(Resize(image, p))
  }

  /**
    The shape returned by `load_image(path, size, remove_alpha_channel, cap)` for a
    file that decodes to `image`. As in the source, `cap` is accepted and never read.
   */
  function LoadShape(image: ImageShape, size: SizeArg, removeAlphaChannel: bool, cap: int)
    : (r: Result<ImageShape, Error>)
    requires Decoded(image)
    ensures r.Err? <==> size.Items? && |size.xs| != 2
    ensures r.Ok? && removeAlphaChannel ==> r.value.channels == Min(image.channels, 3)
    ensures r.Ok? && !removeAlphaChannel ==> r.value.channels == image.channels
  {
    match LoadResize(image, size)
    case Err(e) => Err(e)
    case Ok(resized) => Ok(if removeAlphaChannel then StripAlpha(resized) else resized)
  }

  /**
    load_image as its documentation describes it: the automatic downscale uses
    the `cap` argument instead of the literal 2048.
   */
  function LoadShapeCapped(image: ImageShape, size: SizeArg, removeAlphaChannel: bool, cap: int)
    : (r: Result<ImageShape, Error>)
    requires Decoded(image) && cap > 0
    ensures r.Err? <==> size.Items? && |size.xs| != 2
    ensures r.Ok? && size.Omitted? ==> r.value.height <= cap && r.value.width <= cap
  {
    match NormalizeSize(size)
    case Err(e) => Err(e)
    case Ok(target) =>
      var resized :=
        match target
        case Some(p) => Resize(image, p)
        case None =>
          match DownscaleTarget(image.height, image.width, cap)
          case None => image
          case Some(p) => Resize(image, p);
      Ok(if removeAlphaChannel then StripAlpha(resized) else resized)
  }

  // ---------------------------------------------------------------------------
  // save_image
  // ---------------------------------------------------------------------------

  /** `squeeze(0)`: drop the leading dimension when, and only when, it is 1. */
  function Squeeze0(dims: seq<int>): (r: seq<int>)
    ensures |dims| > 0 && dims[0] == 1 ==> r == dims[1..]
    ensures (|dims| == 0 || dims[0] != 1) ==> r == dims
  {
    if |dims| > 0 && dims[0] == 1 then dims[1..] else dims
  }

  /** The library resize of a tensor of any rank: the last two dimensions become `p`. */
  function ResizeDims(dims: seq<int>, p: Pair): (r: Result<seq<int>, Error>)
    ensures r.Err? <==> |dims| < 2
    ensures r.Ok? ==>
      && |r.value| == |dims|
      && r.value[..|dims| - 2] == dims[..|dims| - 2]
      && r.value[|dims| - 2] == p.height && r.value[|dims| - 1] == p.width
  {
    if |dims| < 2 then Err(NotAnImage(|dims|))
    else Ok(dims[..|dims| - 2] + [p.height, p.width])
  }

  /**
    The shape that `save_image(tensor, path, size)` hands to the image conversion:
    resized to the normalised size when one is given, then squeezed at dimension 0.
   */
  function SaveShape(dims: seq<int>, size: SizeArg): (r: Result<seq<int>, Error>)
    ensures size.Items? && |size.xs| != 2 ==> r == Err(SizeNotPair(|size.xs|))
    ensures size.Omitted? ==> r.Ok?
  {
    match NormalizeSize(size)
    case Err(e) => Err(e)
    case Ok(None) => Ok(Squeeze0(dims))
    case Ok(Some(p)) =>
      match ResizeDims(dims, p)
      case Err(e) => Err(e)
      case Ok(resized) => Ok(Squeeze0(resized))
  }
}
