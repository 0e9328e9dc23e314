# showerglass face-mask compositing, modelled in Dafny

This project models the compositing core of showerglass's `FaceMask` filter (package
`showerglass`, files `core/facemask.go` and `core/ellipse.go`). The filter takes a decoded
photograph and runs these steps:

1. It resolves a target height and width from `Options.NewHeight` / `Options.NewWidth`. An `int` is
   an absolute size. A `float64` is a percentage. `nil` or zero means unchanged. Any other type panics.
2. When the target differs from the original size and the algorithm is Caire (the default), it
   resizes with the content-aware resizer before detection. For any other algorithm it resizes the
   finished image instead: with a fixed interpolation kernel for the four kernel algorithms, and
   with the content-aware resizer for every other value.
3. It detects faces and sorts them by descending confidence `Q`. A face's index after the sort is
   its rank.
4. For every face it computes the face box, the box area and an ellipse. It asks the
   `TriangleConfig` policy for a style. When the policy returns nil, the face is skipped. Otherwise
   the task ORs the ellipse into a union mask, triangulates the face box, and pastes the rendering
   into a face template.
5. It composites the template onto the frame through the union mask.
6. It may resize the result.

What is modelled and how:

- **Collaborators.** The detector, the two resizers, the triangulator and the per-pixel `draw.Over`
  blend are function fields of `FaceTasks.Env`.
- **Images.** An image passed to or from a collaborator is a value (`Raster.Image`). The union mask,
  the face template and the frame are `array2` buffers, changed in place by loops (`Buffers`).
- **Fan-out.** The concurrent fan-out is modelled as a loop in rank order (`Pipeline.FanOut`).
- **Specification.** Every outcome of a run is given by the function `Pipeline.Run`. The method
  `Pipeline.FaceMask` is proved to return exactly what `Run` gives, for the ranking its in-place
  sort produced.
- **Ellipse test.** The float64 ellipse test is modelled with exact division extended by NaN and
  the infinities. As a result, a zero radius makes every pixel clear, as in Go. A lemma shows the
  test equals the cross-multiplied integer inequality.

## Model

| member | source | states |
|---|---|---|
| GoNumeric.Trunc | core/facemask.go:116 | `int(f)` truncates toward zero: the result has the sign of `f` and lies within 1 of `f` on the zero side |
| GoNumeric.TruncMonotone | core/facemask.go:217-226 | truncation is monotone, so a face box's minimum corner never exceeds its maximum corner |
| GoNumeric.Div | core/ellipse.go:37-38 | float64 division `n/d` is finite exactly when `d != 0`, and then multiplied by `d` gives back `n`; 0/0 is NaN, and `n/0` is +Inf or -Inf by the sign of `n` |
| GoNumeric.Add | core/ellipse.go:39 | float64 addition: exact on finite values; NaN when either operand is NaN |
| EllipseStencil.Bounds | core/ellipse.go:23-33 | the stencil's rectangle is `2rx` wide and `2ry` high, half-open, and centred on `(cx, cy)` |
| EllipseStencil.At | core/ellipse.go:35-45 | the stencil's alpha is always 0 or 255 |
| EllipseStencil.AtIffInsideExact | core/ellipse.go:35-45 | alpha is 255 exactly when both radii are non-zero and `dx²·ry² + dy²·rx² ≤ rx²·ry²` |
| EllipseStencil.DegenerateIsClear | core/ellipse.go:37-40 | with `rx == 0` or `ry == 0` the equation is NaN or +Inf, so every pixel has alpha 0 |
| EllipseStencil.CentreIsOpaque | core/ellipse.go:37-42 | with non-zero radii the centre has alpha 255 |
| EllipseStencil.Symmetric | core/ellipse.go:37-38 | alpha does not change under `dx ↦ −dx` or `dy ↦ −dy` |
| EllipseStencil.OpaqueWithinRadii | core/ellipse.go:37-44 | every opaque pixel has `abs(x−cx) ≤ abs(rx)` and `abs(y−cy) ≤ abs(ry)` |
| EllipseStencil.BelowRadiusIsClear | core/ellipse.go:37-44 | `(cx, cy+ry+1)` has alpha 0 |
| EllipseStencil.SizeFieldsUnused | core/ellipse.go:10-45 | `At` and `Bounds` give the same results whatever `width` and `height` hold |
| EllipseStencil.EdgesOutsideBounds | core/ellipse.go:23-45 | the opaque pixels `(cx+rx, cy)` and `(cx, cy+ry)` lie outside the half-open `Bounds()`, so they are never drawn |
| Config.OnlyFirstOptionsRead | core/facemask.go:107-108 | options after the first are ignored; with no options the run has none |
| ResizePolicy.Resolve | core/facemask.go:108-121 | `int` v≠0 gives v; `nil`, `int` 0 and `float64` 0 give the original; `float64` p≠0 gives the truncation of `orig·p/100`; any other type panics |
| ResizePolicy.FullPercentIsIdentity | core/facemask.go:114-117 | 100.0 percent leaves every dimension unchanged |
| ResizePolicy.HalfPercentHalves | core/facemask.go:114-117 | 50.0 percent halves an even dimension, so 200 becomes 100 |
| ResizePolicy.TargetDims | core/facemask.go:99-137 | without options the target is the original size; a bad `NewHeight` panics before `NewWidth` is looked at; otherwise both axes are resolved |
| ResizePolicy.ResizeSchedule | core/facemask.go:139-165 | at most one resize runs; none when the target equals the original size; otherwise the pre-detection resize runs exactly when the algorithm is Caire, and the final resize (lines 194 and 278) exactly when it is not; with no options, neither runs |
| ResizePolicy.KernelOf | utils.go:25-33 | only the four named kernel values 1..4 select a kernel |
| ResizePolicy.Resize | utils.go:23-46 | for the four kernels the resize cannot fail and gives an image of `abs(nw)` columns and `abs(nh)` rows (`nw×nh` for a non-negative target), every pixel the kernel's value for it; for Caire and every unnamed value, the content-aware resizer's outcome |
| Ranking.RankDetections | core/facemask.go:201 | the in-place sort leaves the detections non-increasing in `Q` and a permutation of the input |
| Ranking.RankZeroIsMostConfident | core/facemask.go:200-201 | after ranking, rank 0 has a `Q` at least that of every detection |
| Ranking.ThreeFacesRanked | core/facemask.go:201 | confidences 0.3, 0.9, 0.6 are ranked 0.9, 0.6, 0.3 |
| FaceGeometry.FaceBox | core/facemask.go:217-226 | the face box `[int(col−scale/2), int(col+scale/2)) × [int(row−scale/2), int(row+scale/2))` is never inverted |
| FaceGeometry.SideLength | core/facemask.go:217-226 | each side of the box is `scale` long, except that an odd side straddling 0 is `scale−1`, because of truncation toward zero |
| FaceGeometry.AreaOfFace | core/facemask.go:228 | the area is the product of the two side lengths; it is `scale²` for an even scale |
| FaceGeometry.RadiiExact | core/facemask.go:243-244 | in exact arithmetic, `rx = int(scale·0.8/2) = ⌊2·scale/5⌋` and `ry = int(scale·0.8/1.6) = ⌊scale/2⌋`, so scale 60 gives 24 and 30 (float64 gives one less for `ry` at some scales; see "## Left out") |
| FaceGeometry.FaceEllipse | core/facemask.go:240-247 | the ellipse is centred on (col, row) with those radii and records the frame size |
| FaceGeometry.StencilInsideFaceBox | core/facemask.go:217-249 | every pixel of a face's drawn stencil lies inside that face's box |
| FaceGeometryExample.ScaleSixtyFace | core/facemask.go:240-247 | centre (100,100), scale 60: radii 24 and 30; (100,100) is opaque and (100,131) is clear |
| Buffers.DrawEllipse | core/facemask.go:248-250 | the union mask becomes its old value OR the stencil, clipped to the frame and to `Bounds()`; nothing else changes |
| Buffers.Paste | core/facemask.go:263-266 | every template pixel in the face box, in the frame and inside the rendering becomes `Over(old, rendering pixel)`; every other pixel keeps its value |
| Buffers.Composite | core/facemask.go:275 | frame pixels where the mask is set become `Over(frame, template)`; every other pixel keeps its value |
| FaceTasks.StyleFor | core/facemask.go:229-237 | without a `TriangleConfig` every face gets `Processor{}`, so none is skipped; a face is skipped exactly when a `TriangleConfig` is given and returns nil for `(rank, area, Q, frame height, frame width)` |
| FaceTasks.Crop | core/facemask.go:252-254 | the triangulator's input has the face box's size, and is transparent wherever the box leaves the frame |
| FaceTasks.CropReadsOnlyTheBox | core/facemask.go:252-254 | two frames that agree inside the face box give the same triangulator input |
| FaceTasks.FaceReadsOnlyItsBox | core/facemask.go:216-268 | a face task reads the frame only inside its own face box: two frames that agree there give the same face outcome |
| FaceTasks.MaskIsUnionOfStencils | core/facemask.go:239-250 | after the tasks, the union mask is set exactly where some non-skipped face's drawn stencil is opaque |
| FaceTasks.TemplateBlackOutsidePastes | core/facemask.go:203-207 | the template stays transparent black wherever no rendering was pasted |
| FaceTasks.FirstErrorIsEarliestFailure | core/facemask.go:270-272 | the group reports an error exactly when some task failed; the error is that of the earliest failed task |
| FaceTasks.FaceTask | core/facemask.go:216-268 | a skipped face writes nothing; otherwise the task ORs the stencil into the mask and pastes the rendering, if any, into the template; the triangulator's error is returned |
| Pipeline.PreResized | core/facemask.go:139-165 | a target equal to the original size, or a non-Caire algorithm, leaves the decoded image as the frame; with Caire (or no options) and a changed target the frame is the content-aware resizer's outcome, so its error ends the run |
| Pipeline.Finish | core/facemask.go:277-280 | without options, with the target equal to the original size, or with Caire, the image is returned unchanged; a kernel final resize to a non-negative target gives an `nw×nh` image; a scheduled content-aware final resize returns caire's image, or a nil image exactly when caire fails |
| Pipeline.Faces | core/facemask.go:213-237 | one face per ranked detection, in rank order, each with that detection's box and ellipse; the face at rank k is skipped exactly when the policy, asked with rank k and the k-th detection's area and `Q`, returns nil |
| Pipeline.FacesPrefix | core/facemask.go:213-268 | a task depends on nothing ranked after it: the faces of the first `n` detections are the first `n` faces |
| Pipeline.FanOut | core/facemask.go:203-272 | the fresh mask and template hold exactly the union of all tasks' stencils and pastes; the first error is kept |
| Pipeline.ComposeFaces | core/facemask.go:203-275 | the result equals `Compose`: the first face error, or the masked composite |
| Pipeline.FaceMask | core/facemask.go:99-282 | the method returns exactly `Run`, for a ranking of the detected faces that is non-increasing in `Q` |
| PipelineFacts.ComposeKeepsUnmaskedPixels | core/facemask.go:275 | a pixel outside every processed face's drawn stencil keeps the frame's value; a pixel inside one shows `Over(frame, template)` |
| PipelineFacts.AllSkippedKeepsFrame | core/facemask.go:229-234 | when the policy skips every face, the composite equals the frame |
| PipelineFacts.FailedTaskFailsCompose | core/facemask.go:256-272 | any failed triangulation makes the run return no image, with the error of the earliest failed face |
| PipelineFacts.MaskWithinFaceBoxes | core/facemask.go:217-250 | every union-mask pixel lies in the box of a face the policy did not skip |
| PipelineFacts.NoFacesReturnsFrame | core/facemask.go:193-198 | with zero detections the run returns the frame, possibly post-resized, without consulting the policy or the triangulator |
| PipelineFacts.NoOptionsKeepsSize | core/facemask.go:139-280 | without options a run that returns an image returns one of the decoded image's size, and no face is skipped |
| PipelineFacts.RunKeepsPixelsOutsideStencils | core/facemask.go:239-282 | in a successful run without a final resize, every pixel outside the processed faces' stencils equals the frame pixel |

## Left out

- Decoding, `pigo.ImgToNRGBA` and the returned format string (core/facemask.go:92-97) are I/O. The model starts from a decoded image of `h` rows and `w` columns with origin (0, 0).
- Detection (core/facemask.go:167-191) is a collaborator, `Env.detect`. It stands for the cascade unpacking (whose error is passed through), `RunCascade` and `ClusterDetections`. The grayscale conversion and the cascade parameters are not modelled.
- Caire's content-aware resize and the per-pixel values of the x/image/draw kernels are collaborators. The kernel resize's destination buffer of the target size is modelled; the content-aware resizer's output size is left open, because caire treats zero and enlarging targets by its own rules and caire is not part of this model. `utils.go`'s `copyImage` and `ConvertToGrayscale` are not called by the core and are not modelled.
- ResizePolicy.Resize: for a negative target the destination's corners are swapped by `image.Rect`, so its origin is negative; the model gives its size only and indexes it from (0, 0).
- FaceTasks.Crop: the crop reaches the triangulator re-based to origin (0, 0), while the source hands it an image whose `Bounds()` is the face box itself; a triangulator that reads `Bounds().Min` is not modelled.
- Triangulation (core/facemask.go:257-258) is a collaborator that may fail. Its rendering is taken to have origin (0, 0), and the paste clips to the rendering's size.
- The per-channel arithmetic of `draw.Over` and `draw.DrawMask` is the abstract `Env.over`. Drawing the opaque stencil over the mask is modelled as a boolean OR, because the stencil's alpha is only ever 0 or 255.
- Concurrency: `errgroup`, the two mutexes, and the run-to-run order of overlapping pastes are not modelled. Tasks run in rank order, all of them run, and the reported error is the earliest-ranked failure. In the source it is the first failure to arrive.
- Floating point: `Q` is a `real` used only for ordering, so NaN confidences are not modelled. Percentages, face-box corners and radii use exact real arithmetic before truncation. float64 rounding is not modelled: `int(scale·0.8/2)` equals ⌊2·scale/5⌋ in float64 for every scale below 10⁶, but `int(scale·0.8/1.6)` is one below ⌊scale/2⌋ for 22 of the scales 20..1000 (about 2%: 86, 162, 172, 182, 324–374 and 648–758 in steps of 10). For example, 86·0.8/1.6 is 42.99999999999999 in float64, so Go's `ry` is 42 where the model's `RadiusY(86)` is 43. Out-of-range float-to-int conversion is not modelled either. The squared distances in `At` are unbounded integers, so 64-bit overflow is not modelled.
- Config.Processor keeps only `MaxPoints` and `BlurRadius` of the triangulator's style, the two the source calls the relevant ones; the core passes the style on unread, so the other parameters are not modelled.
- `ColorModel` (core/ellipse.go:19-21) is not a member: the stencil's alpha is a `byte` by type.
- The panic for a dimension that is neither `int` nor `float64` is modelled as the result `Failure(Panicked(axis))`.
- A negative detection scale is excluded by typing `scale` as `nat`. Pigo never reports one (its minimum face size is 20). With a negative scale, `image.NewNRGBA` of the inverted box would panic.
- The type assertion `resized.(*image.NRGBA)` (core/facemask.go:275) is taken to succeed.
- main.go and bin/main.go (command-line file I/O) are not part of this model.
- Pipeline.FaceMask: the sort is specified only as some ranking that is non-increasing in `Q`, not the order `sort.Slice` picks among equal confidences (it is not stable). `Run` takes the chosen order as a parameter, and `FaceMask` names it with a ghost result (empty when the run stops before detection); the Go function returns only the image and the error.
- Pipeline.Finish: the size of a content-aware final resize is not stated (see the caire line above). When a content-aware final resize fails, the result is `None`: a nil image with no error, as the source's discarded error gives.
