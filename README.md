# Batch assembly and detection post-processing of the R-FCN batch demo

This project models, in Dafny, the sequential logic inside `main()` of the
Deep Feature Flow batch demo driver `rfcn/demo_batch.py`:

- **Batch assembly** (module `Batching`, `batching.dfy`). The driver walks the
  ordered image names. For each image it appends the prepared tensor, the
  `im_info` row `[height, width, scale]` and the name to three accumulators.
  It flushes them into `data` and `image_names_list` after every
  `batch_size`-th image and after the last image. `AssembleBatches` is that
  loop. It is proved equal to a specification function `Chunks`, which cuts a
  sequence into consecutive pieces of `batch_size` items. The lemmas about
  `Chunks` give the number of batches, their sizes, the round trip back to
  the input, where each image lands, and when a flush happens.
- **Per-image post-processing** (module `Postprocess`, `postprocess.dfy`). For
  each foreground class `j` (the background column 0 is skipped), the driver
  builds rows `[x1, y1, x2, y2, score]` from the class's box slice and score
  column. The slice is columns `4j..4j+3`, or columns `4..7` in class-agnostic
  mode. It keeps the rows the non-maximum suppression (NMS) routine selects,
  in its order, and then only the rows whose score is strictly above 0.7.
  `PostprocessImage` is the per-class loop that builds `dets_nms`.
- **Test phase** (module `Pipeline`, `pipeline.dfy`). The warm-up call on
  `data[0]`, then one detector call per batch. The loop accumulates
  `count += len(scores_all)` and post-processes each image of the batch.
  `TestBatches` is that loop. The lemmas show that, under the detector's
  contract, every image is counted once and gets exactly one output, in
  input order.

Tensors are an opaque type parameter. Preparing an image (reading, resizing,
normalising) is a function parameter `prepare`. The detector (`im_batch_detect`
over the network) is a function parameter `detect`. The NMS routine is a
function parameter `nms`. It must return indices of rows it was given
(`NmsInRange`). Scores and coordinates are `real`.

Notes on what the code does:

- The NMS algorithm, its IoU threshold and its tie-breaking are not in the
  driver. It calls a GPU routine it does not show, so NMS is a parameter here.
- In class-agnostic mode the code slices box columns 4..7, not 0..3.
- The score cutoff is the constant 0.7 in the code, not a configuration value.
- The code does not validate `batch_size`; it is the constant 10 (a 0 would
  raise ZeroDivisionError at `% batch_size`). The model takes it as a
  parameter with `requires batchSize >= 1`.
- The progress line after each batch reads `im_names[0]` and divides by the
  count without a guard. `TestBatches` models both failures: an empty batch
  of names raises IndexError, and a count of 0 raises ZeroDivisionError.
  Either one stops the run. `ZeroDivisionOnlyAtFirstBatch` and
  `AssembledRunDoesNotFail` show when that can happen.

## Model

| member | source | states |
|---|---|---|
| Batching.AssembleBatches | rfcn/demo_batch.py:71-93 | the loop's `image_names_list` is the input cut into consecutive batches of `batch_size`; `data[k]` holds the prepared tensors and `im_info` rows of exactly the names of batch `k`; the batches concatenate back to the input; the three accumulators are empty after the loop |
| Batching.ChunksCount | rfcn/demo_batch.py:76-93 | there are exactly ceil(n / batch_size) batches |
| Batching.ChunksSizes | rfcn/demo_batch.py:85-93 | every batch but the last has `batch_size` items; the last has 1 to `batch_size` items, `n % batch_size` of them when that is non-zero |
| Batching.FlattenChunks | rfcn/demo_batch.py:87-93 | concatenating the batches of names gives back the input names, in order |
| Batching.ChunksAt | rfcn/demo_batch.py:85-93 | name `p` of the input is name `p % batch_size` of batch `p / batch_size`, so each name sits in exactly one batch |
| Batching.ChunksSnoc | rfcn/demo_batch.py:88-93 | flushing a pending batch of 1 to `batch_size` names after full batches appends exactly that batch |
| Batching.ChunksPrefix | rfcn/demo_batch.py:88-93 | the first `k + 1` batches hold exactly the first min((k+1) * batch_size, n) names |
| Batching.FlushIffBatchEnd | rfcn/demo_batch.py:88 | the loop flushes after image `idx` (`(idx+1) % batch_size == 0` or `idx` is last) exactly when `idx` is the last image of some batch |
| Batching.DemoBatchSizes | rfcn/demo_batch.py:67-93 | 23 images with the demo's batch size 10 give batches of 10, 10 and 3 images |
| Batching.NoBatchIffNoImage | rfcn/demo_batch.py:76-93 | no batch is produced exactly when there is no image |
| Batching.BatchesAligned | rfcn/demo_batch.py:85-89 | `data` has one element per batch of names, and batch `k` holds one tensor and one `im_info` row per name, index-aligned with the names |
| Postprocess.ClassRows | rfcn/demo_batch.py:139-141 | the class's stacked rows have one row per box |
| Postprocess.AboveThreshold | rfcn/demo_batch.py:144 | the mask `score > 0.7` keeps no more rows than it is given, and every row it keeps scores above 0.7 |
| Postprocess.AboveThresholdMembers | rfcn/demo_batch.py:144 | a row survives the mask exactly when it is among the input rows and scores strictly above 0.7 |
| Postprocess.AboveThresholdAppend | rfcn/demo_batch.py:144 | the mask preserves order: masking a concatenation concatenates the masked parts |
| Postprocess.AboveThresholdIdempotent | rfcn/demo_batch.py:144 | applying the mask twice equals applying it once |
| Postprocess.ThresholdBoundary | rfcn/demo_batch.py:144 | a score of exactly 0.7 is dropped and a score above 0.7 is kept |
| Postprocess.KeepAbove | rfcn/demo_batch.py:143-144 | the kept indices after masking are in range and their rows score above 0.7 |
| Postprocess.KeepAboveMembers | rfcn/demo_batch.py:143-144 | an index survives exactly when NMS kept it, it is in range, and its row scores above 0.7 |
| Postprocess.KeepAboveAppend | rfcn/demo_batch.py:143-144 | the surviving indices keep NMS's order: filtering a concatenation concatenates the filtered parts |
| Postprocess.ThresholdAfterKeep | rfcn/demo_batch.py:142-144 | `KeepRows` (the rows indexed by `keep`, line 143) followed by the mask equals indexing by the subsequence of `keep` whose rows pass the cutoff, in `keep` order |
| Postprocess.ClassDetections | rfcn/demo_batch.py:139-144 | the detections of class `j` are at most one per row kept by NMS, and each scores above 0.7 |
| Postprocess.ClassDetectionsSpec | rfcn/demo_batch.py:139-144 | about `ClassDetections`, which builds the class's rows, applies `KeepRows` and the mask: every detection reported for class `j` is the row of a box the NMS kept, with that box's slice `4j..4j+3` (or `4..7` in class-agnostic mode) and its class-`j` score, which is above 0.7; every kept row above 0.7 is reported |
| Postprocess.PostprocessImage | rfcn/demo_batch.py:137-145 | `dets_nms` holds `num_classes - 1` lists, list `k` being the detections of class `k + 1`, so classes come in ascending order and class 0 is never included |
| Postprocess.BackgroundIgnored | rfcn/demo_batch.py:138-145 | changing only the background scores (column 0) does not change `dets_nms` |
| Postprocess.AgnosticAgreesWhenSlicesMatch | rfcn/demo_batch.py:140 | when class `j`'s own box slice equals columns 4..7 in every row, class-agnostic and per-class modes report the same detections for `j` |
| Postprocess.AgnosticSharesBoxes | rfcn/demo_batch.py:140 | in class-agnostic mode all foreground classes see the same box coordinates for a row |
| Pipeline.WarmUpNeedsAnImage | rfcn/demo_batch.py:111-116 | the warm-up (`WarmUp`, which runs the detector on `data[0]`) fails with an index error exactly when there are no images |
| Pipeline.TestBatches | rfcn/demo_batch.py:120-145 | the run stops at the first batch whose progress line fails (IndexError for an empty batch of names, ZeroDivisionError while the count is 0), with that error; `count` is the total number of detector results up to and including the last batch detected; the outputs are those of the batches before the stop, each naming image `i` after `im_names[i]` with the `dets_nms` of the detector's `i`-th result |
| Pipeline.TotalDetectedAtLeastFirst | rfcn/demo_batch.py:130 | the count after any batch is at least the number of results of the first batch |
| Pipeline.ZeroDivisionOnlyAtFirstBatch | rfcn/demo_batch.py:130-132 | with non-empty batches of names, the run fails exactly when the first batch yields no detector result, and then with ZeroDivisionError at batch 0, before any image is written |
| Pipeline.NoFailureFrom | rfcn/demo_batch.py:130-132 | with non-empty batches of names and a first batch with a result, no progress line from batch `i` on fails |
| Pipeline.CountIsImageTotal | rfcn/demo_batch.py:121-131 | with one detector result per image, the count equals the number of images in the batches |
| Pipeline.CountPositiveAfterEachBatch | rfcn/demo_batch.py:130-132 | with one detector result per image, the count is at least 1 after every batch, so `time / count` never divides by zero |
| Pipeline.AssembledRunDoesNotFail | rfcn/demo_batch.py:85-132 | for batches assembled from the input names and a detector that returns one result per image, no progress line fails |
| Pipeline.EveryImageProcessedOnce | rfcn/demo_batch.py:122-152 | for batches assembled from the input names and a detector that returns one result per image, the count is the number of images and the output names, batch after batch, are the input names in order |

## Left out

- Image reading, resizing and normalisation (lines 77-83) are I/O and image libraries. They are the opaque parameter `prepare`, and the existence check on each file is not modelled.
- Drawing boxes and writing output images (lines 147-152) are I/O. The model stops at the name and `dets_nms` handed to the renderer (`ImageOutput`).
- The NMS algorithm (`gpu_nms_wrapper`, lines 34 and 108) is a GPU routine the driver does not show. It is a parameter that returns in-range row indices.
- The network, `Predictor`, parameter loading, device context and `DataBatch` construction (lines 96-116, 123-129) are black-box plumbing. The detector is a parameter `detect` from a batch to its per-image raw detections. The per-image scale extraction it receives (lines 115 and 126) is not modelled.
- Configuration loading, symbol lookup by `eval`, environment flags and argument parsing (lines 21-48) are configuration and reflection.
- Wall-clock timing (`tic`/`toc`) and the printed average (lines 128-132) are clock and floating point. Only the integer count is modelled.
- The `glob` enumeration order (line 63) depends on the file system. The names are an input sequence.
- Floating-point rounding is not modelled. Scores and coordinates are `real`, and the float32 conversion of lines 135-136 is not captured.
- Postprocess.WellShaped: detector outputs are required to have one score row per box row and enough box columns for every class slice. numpy would silently truncate an out-of-range slice, and that case is not modelled.
- Pipeline.TestBatches: requires `len(scores_all)` not to exceed the batch's names and `data` to have an element for each batch of names. The driver would raise an index error otherwise, and that error path is not modelled. The IndexError and ZeroDivisionError of the progress line are modelled.
- Tensors are an opaque type, so the requirement of `np.concatenate` (line 89) that all tensors of a batch have the same shape is not modelled. Images of different sizes in one batch would raise ValueError there. The model's `AssembleBatches` always succeeds.
