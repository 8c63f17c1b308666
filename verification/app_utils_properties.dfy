/**
  Properties of the shape model of app_utils.py that relate several calls:
  what each `size` argument leads to, the aspect ratio kept by the automatic
  downscale, the channels kept, and the batch dimension that save_image drops.
 */
module AppUtilsProperties {
  import opened Wrappers
  import opened AppUtils

  // ---------------------------------------------------------------------------
  // Size-argument normalisation
  // ---------------------------------------------------------------------------

  /** A scalar means the same as the pair that repeats it; a written-out pair is read back as it is. */
  lemma NormalizeSizeRoundTrip(s: int, p: Pair)
    ensures NormalizeSize(Scalar(s)) == Ok(Some(Pair(s, s)))
    ensures NormalizeSize(Scalar(s)) == NormalizeSize(Items([s, s]))
    ensures NormalizeSize(Items([p.height, p.width])) == Ok(Some(p))
  {
  }

  /** A sequence of any length other than 2 is refused by load_image and by save_image alike. */
  lemma SizeNotPairRejected(image: ImageShape, dims: seq<int>, xs: seq<int>, removeAlphaChannel: bool, cap: int)
    requires Decoded(image) && |xs| != 2
    ensures LoadShape(image, Items(xs), removeAlphaChannel, cap) == Err(SizeNotPair(|xs|))
    ensures SaveShape(dims, Items(xs)) == Err(SizeNotPair(|xs|))
  {
  }

  // ---------------------------------------------------------------------------
  // load_image
  // ---------------------------------------------------------------------------

  /** The channel count load_image keeps: the first three with alpha removal, all of them without. */
  function KeptChannels(channels: int, removeAlphaChannel: bool): int
  {
    if removeAlphaChannel then Min(channels, 3) else channels
  }

  /**
    An explicit size is obeyed exactly: the spatial shape becomes the normalised
    pair whatever its aspect ratio and even beyond 2048; the cap path is skipped.
   */
  lemma LoadExplicitSize(image: ImageShape, size: SizeArg, p: Pair, removeAlphaChannel: bool, cap: int)
    requires Decoded(image) && NormalizeSize(size) == Ok(Some(p))
    ensures LoadShape(image, size, removeAlphaChannel, cap)
      == Ok(ImageShape(KeptChannels(image.channels, removeAlphaChannel), p.height, p.width))
  {
  }

  /** Without a size, an image whose sides are both at most 2048 keeps its spatial shape. */
  lemma LoadWithinLimitUnchanged(image: ImageShape, removeAlphaChannel: bool, cap: int)
    requires Decoded(image) && image.height <= MaxSide && image.width <= MaxSide
    ensures LoadShape(image, Omitted, removeAlphaChannel, cap)
      == Ok(ImageShape(KeptChannels(image.channels, removeAlphaChannel), image.height, image.width))
  {
  }

  /**
    Without a size, an oversize image at least as tall as it is wide gets height
    2048 and width `floor(w * 2048 / h)`.
   */
  lemma LoadDownscaleTall(image: ImageShape, removeAlphaChannel: bool, cap: int)
    requires Decoded(image) && (image.height > MaxSide || image.width > MaxSide)
    requires image.height >= image.width
    ensures LoadShape(image, Omitted, removeAlphaChannel, cap)
      == Ok(ImageShape(KeptChannels(image.channels, removeAlphaChannel),
                       MaxSide, image.width * MaxSide / image.height))
  {
  }

  /**
    Without a size, an oversize image wider than it is tall gets width 2048 and
    height `floor(h * 2048 / w)`.
   */
  lemma LoadDownscaleWide(image: ImageShape, removeAlphaChannel: bool, cap: int)
    requires Decoded(image) && (image.height > MaxSide || image.width > MaxSide)
    requires image.width > image.height
    ensures LoadShape(image, Omitted, removeAlphaChannel, cap)
      == Ok(ImageShape(KeptChannels(image.channels, removeAlphaChannel),
                       image.height * MaxSide / image.width, MaxSide))
  {
  }

  /** A square oversize image goes to 2048 by 2048. */
  lemma LoadDownscaleSquare(image: ImageShape, removeAlphaChannel: bool, cap: int)
    requires Decoded(image) && image.height == image.width > MaxSide
    ensures LoadShape(image, Omitted, removeAlphaChannel, cap)
      == Ok(ImageShape(KeptChannels(image.channels, removeAlphaChannel), MaxSide, MaxSide))
  {
    var t := DownscaleTarget(image.height, image.width, MaxSide);
    assert t.value.width * image.height <= image.height * MaxSide < (t.value.width + 1) * image.height;
    QuotientUnique(t.value.width, MaxSide, image.height, image.height * MaxSide);
  }

  /** The result of load_image does not depend on `cap`: the literal 2048 is used throughout. */
  lemma LoadIgnoresCap(image: ImageShape, size: SizeArg, removeAlphaChannel: bool, cap1: int, cap2: int)
    requires Decoded(image)
    ensures LoadShape(image, size, removeAlphaChannel, cap1) == LoadShape(image, size, removeAlphaChannel, cap2)
  {
  }

  /** Alpha removal touches only the channel count; the spatial shape is the same either way. */
  lemma AlphaRemovalKeepsSpatialShape(image: ImageShape, size: SizeArg, cap: int)
    requires Decoded(image)
    ensures var stripped := LoadShape(image, size, true, cap);
            var kept := LoadShape(image, size, false, cap);
      && stripped.Ok? == kept.Ok?
      && (stripped.Ok? ==>
            && stripped.value.height == kept.value.height
            && stripped.value.width == kept.value.width
            && stripped.value.channels == Min(image.channels, 3)
            && kept.value.channels == image.channels)
  {
  }

  /**
    Loading without a size is idempotent on shapes: what the automatic downscale
    produces is within 2048 on both sides, so a second pass leaves it alone.
   */
  lemma LoadWithoutSizeIdempotent(image: ImageShape, removeAlphaChannel: bool, cap: int)
    requires Decoded(image)
    ensures var once := LoadShape(image, Omitted, removeAlphaChannel, cap);
      && once.Ok?
      && Decoded(once.value)
      && once.value.height <= MaxSide && once.value.width <= MaxSide
      && LoadShape(once.value, Omitted, removeAlphaChannel, cap) == once
  {
  }

  // ---------------------------------------------------------------------------
  // The automatic downscale, for any limit
  // ---------------------------------------------------------------------------

  /**
    The reference meaning of the downscale: the longer source side (the height
    on a tie) becomes `limit`, and the other side is the largest whole number
    that does not exceed its exact scaled length.
   */
  predicate IsAspectFit(height: int, width: int, limit: int, t: Pair)
  {
    if height >= width then
      t.height == limit && t.width * height <= width * limit < (t.width + 1) * height
    else
      t.width == limit && t.height * width <= height * limit < (t.height + 1) * width
  }

  /** Helper: a whole number `o` with `o * d <= n < (o + 1) * d` is unique. */
  lemma QuotientUnique(o1: int, o2: int, d: int, n: int)
    requires d > 0
    requires o1 * d <= n < (o1 + 1) * d
    requires o2 * d <= n < (o2 + 1) * d
    ensures o1 == o2
  {
    if o1 < o2 {
      MulMonotone(o1 + 1, o2, d);
    } else if o2 < o1 {
      MulMonotone(o2 + 1, o1, d);
    }
  }

  /**
    The downscale target is exactly the aspect fit: the target is one, and any
    pair that is one is the target.
   */
  lemma DownscaleTargetIsAspectFit(height: int, width: int, limit: int, t: Pair)
    requires height >= 0 && width >= 0 && limit > 0
    requires height > limit || width > limit
    ensures IsAspectFit(height, width, limit, DownscaleTarget(height, width, limit).value)
    ensures IsAspectFit(height, width, limit, t) <==> DownscaleTarget(height, width, limit) == Some(t)
  {
    var target := DownscaleTarget(height, width, limit).value;
    if IsAspectFit(height, width, limit, t) {
      if height >= width {
        QuotientUnique(t.width, target.width, height, width * limit);
      } else {
        QuotientUnique(t.height, target.height, width, height * limit);
      }
    }
  }

  /**
    The shorter target side is 0 exactly when the shorter source side scaled by
    `limit` stays below the longer source side; the source does not guard
    against this degenerate target.
   */
  lemma DownscaleDegenerateIff(height: int, width: int, limit: int)
    requires height >= 0 && width >= 0 && limit > 0
    requires height > limit || width > limit
    ensures var t := DownscaleTarget(height, width, limit).value;
      (t.height == 0 || t.width == 0) <==>
        (if height >= width then width * limit < height else height * limit < width)
  {
  }

  /** Of two images with the same longer side, the one with the longer other side keeps the longer target. */
  lemma ScaledSideMonotone(other1: int, other2: int, longer: int, limit: int)
    requires 0 <= other1 <= other2 <= longer && 0 < limit < longer
    ensures ScaledSide(other1, longer, limit) <= ScaledSide(other2, longer, limit)
  {
    var o1, o2 := ScaledSide(other1, longer, limit), ScaledSide(other2, longer, limit);
    MulMonotone(other1, other2, limit);
    if o1 > o2 {
      MulMonotone(o2 + 1, o1, longer);
    }
  }

  /** The example of a 4000 by 1000 RGBA picture: alpha is dropped and it becomes 2048 by 512. */
  lemma LoadRgbaExample()
    ensures LoadShape(ImageShape(4, 4000, 1000), Omitted, true, 2048) == Ok(ImageShape(3, 2048, 512))
  {
  }

  /** A 1 by 4097 strip gets the degenerate target 0 by 2048. */
  lemma LoadDegenerateExample()
    ensures LoadShape(ImageShape(3, 1, 4097), Omitted, true, 2048) == Ok(ImageShape(3, 0, 2048))
  {
  }

  // ---------------------------------------------------------------------------
  // The `cap` argument: as written, and as documented
  // ---------------------------------------------------------------------------

  /** With cap 1024, a 1500 by 1000 image keeps its 1500 rows: the cap is not applied. */
  lemma CapIgnoredExample()
    ensures LoadShape(ImageShape(3, 1500, 1000), Omitted, true, 1024) == Ok(ImageShape(3, 1500, 1000))
    ensures LoadShapeCapped(ImageShape(3, 1500, 1000), Omitted, true, 1024) == Ok(ImageShape(3, 1024, 682))
  {
  }

  /** At the default cap the documented behaviour and the written one agree, for every argument. */
  lemma CappedAgreesAtDefault(image: ImageShape, size: SizeArg, removeAlphaChannel: bool, cap: int)
    requires Decoded(image)
    ensures LoadShapeCapped(image, size, removeAlphaChannel, MaxSide) == LoadShape(image, size, removeAlphaChannel, cap)
  {
  }

  /**
    With `cap` read as documented, an image without a size is left alone when
    both sides are within `cap`, and otherwise gets the aspect fit to `cap`.
   */
  lemma CappedDownscale(image: ImageShape, removeAlphaChannel: bool, cap: int)
    requires Decoded(image) && cap > 0
    ensures var r := LoadShapeCapped(image, Omitted, removeAlphaChannel, cap);
      && r.Ok?
      && r.value.channels == KeptChannels(image.channels, removeAlphaChannel)
      && (image.height <= cap && image.width <= cap ==>
            r.value.height == image.height && r.value.width == image.width)
      && (image.height > cap || image.width > cap ==>
            IsAspectFit(image.height, image.width, cap, Pair(r.value.height, r.value.width)))
  {
    if image.height > cap || image.width > cap {
      DownscaleTargetIsAspectFit(image.height, image.width, cap, Pair(0, 0));
    }
  }

  // ---------------------------------------------------------------------------
  // Alpha removal: as written, and as documented
  // ---------------------------------------------------------------------------

  /** A grey-and-alpha image loaded with alpha removal keeps both channels: `image[:3]` drops nothing. */
  lemma AlphaKeptOnGreyAlphaExample()
    ensures LoadShape(ImageShape(2, 10, 10), Omitted, true, 2048) == Ok(ImageShape(2, 10, 10))
    ensures RemoveAlphaChannel(ImageShape(2, 10, 10)) == ImageShape(1, 10, 10)
  {
  }

  /** The documented alpha removal and `image[:3]` agree on every channel count except 2. */
  lemma RemoveAlphaAgreesWithStripAlpha(image: ImageShape)
    requires 1 <= image.channels <= 4
    ensures RemoveAlphaChannel(image) == StripAlpha(image) <==> image.channels != 2
  {
  }

  // ---------------------------------------------------------------------------
  // save_image
  // ---------------------------------------------------------------------------

  /** `squeeze(0)` undoes the addition of a leading batch dimension. */
  lemma Squeeze0UndoesBatch(dims: seq<int>)
    ensures Squeeze0([1] + dims) == dims
  {
  }

  /**
    A (1, c, h, w) tensor is saved as its (c, h, w) content: resized when a size
    is given, and not squeezed a second time.
   */
  lemma SaveDropsBatch(dims: seq<int>, size: SizeArg)
    requires |dims| >= 2
    ensures NormalizeSize(size) == Ok(None) ==> SaveShape([1] + dims, size) == Ok(dims)
    ensures NormalizeSize(size).Ok? && NormalizeSize(size).value.Some? ==>
      SaveShape([1] + dims, size) == ResizeDims(dims, NormalizeSize(size).value.value)
  {
    Squeeze0UndoesBatch(dims);
    match NormalizeSize(size)
    case Err(_) =>
    case Ok(None) =>
    case Ok(Some(p)) =>
      var n := |dims|;
      var batched := [1] + dims;
      assert batched[..n + 1 - 2] == [1] + dims[..n - 2];
      assert ResizeDims(batched, p).value == [1] + ResizeDims(dims, p).value;
      Squeeze0UndoesBatch(ResizeDims(dims, p).value);
  }

  /**
    save_image treats a (c, h, w) tensor whose channel count is not 1 and the same
    tensor with a leading batch dimension of 1 alike.
   */
  lemma SaveBatchedMatchesUnbatched(dims: seq<int>, size: SizeArg)
    requires |dims| >= 3 && dims[0] != 1
    ensures SaveShape([1] + dims, size) == SaveShape(dims, size)
  {
    SaveDropsBatch(dims, size);
    match NormalizeSize(size)
    case Err(_) =>
    case Ok(None) =>
    case Ok(Some(p)) =>
      assert ResizeDims(dims, p).value[0] == dims[0];
  }

  /**
    With a size, the tensor handed on has the requested pair as its last two
    dimensions, and loses its leading dimension exactly when that is 1.
   */
  lemma SaveExplicitSize(dims: seq<int>, size: SizeArg, p: Pair)
    requires |dims| >= 3 && NormalizeSize(size) == Ok(Some(p))
    ensures var r := SaveShape(dims, size);
      && r.Ok?
      && |r.value| == (if dims[0] == 1 then |dims| - 1 else |dims|)
      && r.value[|r.value| - 2] == p.height && r.value[|r.value| - 1] == p.width
      && (dims[0] != 1 ==> r.value[0] == dims[0])
  {
  }
}
