# Shape model of the image helpers in app_utils.py

`app_utils.py` is a set of notebook helpers: `load_image` decodes a file into a
(channel, height, width) tensor, optionally resizes it, downscales it automatically
when a side is above 2048 pixels, and strips the alpha channel; `save_image`
optionally resizes a tensor, squeezes away a leading batch dimension of 1 and
writes it out.

This project models the decisions those two functions take about the tensor's
SHAPE, which is the only self-contained logic in the file:

- `wrappers.dfy` — `Option` and `Result`, for the optional size target and the
  failed `size` assertion.
- `app_utils.dfy` (module `AppUtils`) — the `size` argument (`SizeArg`: omitted,
  a scalar or a sequence) and its normalisation; the automatic downscale target
  for any limit (`ScaledSide`, `DownscaleTarget`); the shape of `load_image`
  (`LoadResize`, `StripAlpha`, `LoadShape`) and of `save_image` (`ResizeDims`,
  `Squeeze0`, `SaveShape`); and, for the two gaps listed under Findings,
  `LoadShapeCapped` (the documented `cap`) and `RemoveAlphaChannel` (the
  documented alpha removal).
- `app_utils_properties.dfy` (module `AppUtilsProperties`) — lemmas relating
  these: what each kind of `size` leads to, that the downscale is the unique
  aspect-ratio fit, idempotence, independence from `cap`, and how a batched and
  an unbatched tensor are saved.

Assumptions of the model:

- A library resize is seen only through its effect on the shape: the last two
  dimensions become the requested (height, width) pair, everything else is kept.
  A tensor with fewer than two dimensions is refused by the resize
  (`NotAnImage`).
- `int(other / (longer / 2048))` is read as the integer floor of
  `other * 2048 / longer`. 2048 is a power of two, so `longer / 2048` is exact in
  binary floating point; the one rounded division that follows cannot cross an
  integer for image-sized sides (the exact quotient is either an integer, which
  is representable, or at least `1 / longer` away from one, far more than the
  rounding error). All sides are non-negative, so `int()`'s truncation toward
  zero is the floor.
- Shapes use unbounded integers, as Python does.

Facts about the code that the model keeps as they are: the downscale
truncates toward zero (app_utils.py:55, 59); alpha removal keeps the first
`min(c, 3)` channels (app_utils.py:64), so a one- or two-channel image keeps
all of its channels; `squeeze(0)` removes any leading dimension of size 1
(app_utils.py:85), so the channel dimension of a (1, h, w) tensor given to
`save_image` is removed too; and `cap` is never read (app_utils.py:30, 52-60).
Two of these contradict the docstrings (app_utils.py:37-39) and are listed
under Findings.

## Model

| member | source | states |
|---|---|---|
| AppUtils.NormalizeSize | app_utils.py:47-49 | The size assertion fails exactly for a sequence whose length is not 2; the result is "no size" exactly when none was given (the same expression is at lines 82-83) |
| AppUtils.ScaledSide | app_utils.py:53-60 | The shorter target side `o` lies in `[0, limit]`, never exceeds the source side, is the floor of the exact scaled length (`o*longer <= other*limit < (o+1)*longer`), and is 0 exactly when `other*limit < longer` |
| AppUtils.DownscaleTarget | app_utils.py:52-60 | No downscale exactly when both sides are within the limit; otherwise the target fits within the limit, has one side equal to it, and enlarges neither side |
| AppUtils.Resize | app_utils.py:50 | The library resize keeps the channel count and sets the spatial shape to the requested pair |
| AppUtils.StripAlpha | app_utils.py:63-64 | `image[:3]` keeps at most three channels, exactly three when there were at least three, leaves an image of at most three channels unchanged, and keeps the spatial shape |
| AppUtils.LoadResize | app_utils.py:47-61 | The model's resize step fails exactly on a bad size sequence (failures inside the library resize are not modelled) and never changes the channel count |
| AppUtils.LoadShape | app_utils.py:30-67 | The model of load_image fails exactly on a bad size sequence (library failures are not modelled, see Left out); the result has `min(c, 3)` channels with alpha removal and `c` without |
| AppUtils.LoadShapeCapped | app_utils.py:38-39 | The documented behaviour: the model fails exactly on a bad size sequence; without a size, both result sides are at most `cap` (the full shape is stated by CappedDownscale) |
| AppUtils.RemoveAlphaChannel | app_utils.py:37 | The documented alpha removal: an image of 1 to 4 channels ends with 1 or 3 channels, keeps colour exactly when it had it, loses at most one channel, and keeps its spatial shape |
| AppUtils.Squeeze0 | app_utils.py:85 | `squeeze(0)` drops the leading dimension when it is 1 and leaves every other shape unchanged |
| AppUtils.ResizeDims | app_utils.py:84 | The resize of a tensor of any rank fails exactly below two dimensions; otherwise it keeps the rank and the leading dimensions and ends in the requested pair |
| AppUtils.SaveShape | app_utils.py:80-89 | The model of save_image refuses a size sequence of length other than 2 with that length, and without a size always hands a shape on (whether the conversion accepts that shape is not modelled) |
| AppUtilsProperties.NormalizeSizeRoundTrip | app_utils.py:48 | A scalar `s` normalises to `(s, s)`, the same as the sequence `[s, s]`; a written-out pair normalises back to itself |
| AppUtilsProperties.SizeNotPairRejected | app_utils.py:82-83 | A sequence of length other than 2 is refused by load_image and by save_image alike, whatever the image |
| AppUtilsProperties.LoadExplicitSize | app_utils.py:47-50 | With an explicit size, the spatial shape is exactly the normalised pair (regardless of aspect ratio or of 2048) and the channels are the kept ones |
| AppUtilsProperties.LoadWithinLimitUnchanged | app_utils.py:52 | Without a size, an image whose sides are both at most 2048 keeps its spatial shape |
| AppUtilsProperties.LoadDownscaleTall | app_utils.py:53-56 | Without a size, an oversize image with `h >= w` becomes `(2048, floor(w*2048/h))` |
| AppUtilsProperties.LoadDownscaleWide | app_utils.py:57-60 | Without a size, an oversize image with `w > h` becomes `(floor(h*2048/w), 2048)` |
| AppUtilsProperties.LoadDownscaleSquare | app_utils.py:53-56 | A square oversize image becomes 2048 by 2048 |
| AppUtilsProperties.LoadIgnoresCap | app_utils.py:30 | The result of load_image is the same for every value of `cap` |
| AppUtilsProperties.AlphaRemovalKeepsSpatialShape | app_utils.py:63-64 | With and without alpha removal load_image succeeds alike and gives the same spatial shape; only the channel count (`min(c, 3)` against `c`) differs |
| AppUtilsProperties.LoadWithoutSizeIdempotent | app_utils.py:52-61 | Without a size, the model of load_image always gives a shape with both sides within 2048, and applying it to its own result changes nothing |
| AppUtilsProperties.DownscaleTargetIsAspectFit | app_utils.py:53-60 | The downscale target is the aspect-ratio fit (longer side to the limit, the other the floor of its scaled length), and it is the only pair that is |
| AppUtilsProperties.DownscaleDegenerateIff | app_utils.py:54-60 | A target side is 0 exactly when the shorter side times the limit is below the longer side, a target the code does not guard against |
| AppUtilsProperties.ScaledSideMonotone | app_utils.py:54-55 | For the same longer side, a longer other side never gives a shorter target |
| AppUtilsProperties.LoadRgbaExample | app_utils.py:52-64 | A 4-channel 4000 by 1000 image loads as 3 by 2048 by 512 |
| AppUtilsProperties.LoadDegenerateExample | app_utils.py:57-60 | A 1 by 4097 image gets the target 0 by 2048 |
| AppUtilsProperties.CapIgnoredExample | app_utils.py:52 | With `cap = 1024`, a 1500 by 1000 image stays 1500 by 1000 as written, and would become 1024 by 682 as documented |
| AppUtilsProperties.CappedDownscale | app_utils.py:38-39 | With `cap` read as documented and no size, an image within `cap` keeps its spatial shape, and a larger one gets the aspect fit to `cap` (longer side equal to `cap`, the other the floor of its scaled length) |
| AppUtilsProperties.AlphaKeptOnGreyAlphaExample | app_utils.py:63-64 | A 2-channel image loaded with alpha removal keeps both channels as written, and would keep 1 as documented |
| AppUtilsProperties.RemoveAlphaAgreesWithStripAlpha | app_utils.py:63-64 | For 1 to 4 channels, `image[:3]` and the documented alpha removal agree exactly when the image does not have 2 channels |
| AppUtilsProperties.CappedAgreesAtDefault | app_utils.py:30 | At the default cap of 2048 the documented and the written behaviour agree for every argument |
| AppUtilsProperties.Squeeze0UndoesBatch | app_utils.py:85 | `squeeze(0)` removes a prepended batch dimension of 1 |
| AppUtilsProperties.SaveDropsBatch | app_utils.py:81-85 | A `(1, c, h, w)` tensor is saved as its `(c, h, w)` content, resized to the normalised size when one is given |
| AppUtilsProperties.SaveBatchedMatchesUnbatched | app_utils.py:80-89 | A `(c, h, w)` tensor with `c != 1` and the same tensor with a batch dimension of 1 are handed on with the same shape |
| AppUtilsProperties.SaveExplicitSize | app_utils.py:81-85 | With a size, the tensor handed on ends in the requested pair and loses its leading dimension exactly when that is 1 |

## Left out

- `upload_files` (app_utils.py:16-27): notebook widget input and file writes; its only logic is to keep the first uploaded entry in the platform's order.
- `imshow` and `_IMAGE_UNLOADER` (app_utils.py:11-14, 92-106): plotting, a side effect with no result.
- Decoding the file and scaling pixels to [0, 1] (app_utils.py:44-45): the model starts from the decoded shape; decode failures are not modelled.
- Pixel values and the interpolation of the resize (app_utils.py:50, 61, 84): only the effect on shape is modelled.
- `.to(torch.float)`, `.cpu().clone()`, `ToPILImage` and `image.save` (app_utils.py:65, 85-90): type and device conversion, encoding and file output; the model stops at the shape handed to the conversion.
- AppUtils.Resize: does not reject a requested side of 0 or below, which the tensor library refuses at run time; the model passes such a pair through, so the degenerate 0 target is exposed by lemma rather than as an error.
- AppUtils.NormalizeSize: the test `isinstance(size, collections.Sequence)` is modelled as "a sequence of integers"; strings, floats and other non-integer values, and the removal of `collections.Sequence` in Python 3.10 (which makes every non-None size raise), are not modelled.
- AppUtils.LoadShape: the tensor library raises when the resize is asked for a side of 0 or below (an explicit `size=0`, or the degenerate downscale target of a 1 by 4097 image); the model returns that shape instead of a failure.
- AppUtils.SaveShape: `ToPILImage` (app_utils.py:86) raises on a shape it cannot convert (rank other than 2 or 3, or too many channels); the model returns the shape handed to it and does not model that failure.
- The floating-point downscale is modelled by exact integer floor division, under the assumption stated above.

## Findings

| source | as written | input that shows it | evidently intended | confidence | as-written member | corrected member |
|---|---|---|---|---|---|---|
| app_utils.py:52-60 | The threshold and the target side are the literal 2048; the `cap` argument is never read | `load_image` with `cap=1024`, no size, on a 3 by 1500 by 1000 image returns 1500 by 1000 | As documented at app_utils.py:38-39, downscale so that the longer side equals `cap` (1024 by 682 here) | high; not executed | AppUtilsProperties.CapIgnoredExample | AppUtils.LoadShapeCapped |
| app_utils.py:63-64 | With `remove_alpha_channel=True`, the first three channels are kept | A 2-channel grey-and-alpha image keeps both channels, alpha included | As documented at app_utils.py:37, remove the alpha channel (1 channel here) | medium; not executed | AppUtilsProperties.AlphaKeptOnGreyAlphaExample | AppUtils.RemoveAlphaChannel |

`LoadShapeCapped` shares `DownscaleTarget` with `LoadShape`, so every downscale
lemma above, stated for any limit, holds for it; `CappedAgreesAtDefault` shows
that at the default cap it is `LoadShape`; `CappedDownscale` states its whole
result for every cap. `RemoveAlphaChannel` reads an alpha channel off the
channel count as the usual decoded modes have it (2 and 4 carry alpha);
`RemoveAlphaAgreesWithStripAlpha` shows that it differs from `image[:3]` only
on two-channel images.
