/** The test phase of the demo driver (rfcn/demo_batch.py, lines 110-145):
    the warm-up call on the first batch, then one detector call per batch,
    the running count of processed images and the post-processing of every
    image of the batch. */
module Pipeline {
  import opened Batching
  import opened Postprocess

  datatype Error = IndexError | ZeroDivisionError
  datatype Result<T> = Success(value: T) | Failure(error: Error)
  datatype Option<T> = None | Some(value: T)

  /** The detector (`im_batch_detect` over the network): one batch in, the
      raw detections of its images out. */
  type Detector<!T> = Batch<T> -> seq<RawDetections>

  /** The warm-up: one detector call on `data[0]`, whose result is thrown
      away; indexing `data[0]` fails when there is no batch. */
  function WarmUp<T>(data: seq<Batch<T>>, detect: Detector<T>): Result<seq<RawDetections>>
  {
    if data == [] then Failure(IndexError) else Success(detect(data[0]))
  }

  /** The warm-up fails exactly when there are no images: the pipeline needs
      at least one. */
  lemma WarmUpNeedsAnImage<T>(imageNames: seq<string>, batchSize: nat,
                              prepare: string -> Prepared<T>, detect: Detector<T>)
    requires batchSize >= 1
    ensures WarmUp(BatchesOf(Chunks(imageNames, batchSize), prepare), detect).Failure? <==> imageNames == []
  {
  }

  /** What is drawn and written for one image: its name and its `dets_nms`. */
  datatype ImageOutput = ImageOutput(name: string, detsNms: seq<seq<Detection>>)

  /** The number of results the detector returns over the batches `data`. */
  function TotalDetected<T>(data: seq<Batch<T>>, detect: Detector<T>): nat
  {
    if data == [] then 0
    else TotalDetected(data[..|data| - 1], detect) + |detect(data[|data| - 1])|
  }

  /** Each batch's detector results fit its names, and are well shaped. */
  ghost predicate DetectorFits<T>(data: seq<Batch<T>>, imageNamesList: seq<seq<string>>,
                                  detect: Detector<T>, classAgnostic: bool)
  {
    && |imageNamesList| <= |data|
    && (forall k :: 0 <= k < |imageNamesList| ==> |detect(data[k])| <= |imageNamesList[k]|)
    && (forall k, i :: 0 <= k < |imageNamesList| && 0 <= i < |detect(data[k])| ==>
          WellShaped(detect(data[k])[i], classAgnostic))
  }

  /** The outputs of one batch: image `i` of the batch is named
      `imNames[i]` and gets the `dets_nms` of the detector's `i`-th result. */
  function BatchOutputs(results: seq<RawDetections>, imNames: seq<string>, classAgnostic: bool, nms: Nms)
    : seq<ImageOutput>
    requires |results| <= |imNames| && NmsInRange(nms)
    requires forall i :: 0 <= i < |results| ==> WellShaped(results[i], classAgnostic)
  {
    seq(|results|, i requires 0 <= i < |results| =>
          ImageOutput(imNames[i], ImageDetections(results[i], classAgnostic, nms)))
  }

  /** The outputs of all batches, one sequence per batch. */
  function TestOutputs<T>(data: seq<Batch<T>>, imageNamesList: seq<seq<string>>, detect: Detector<T>,
                          classAgnostic: bool, nms: Nms): seq<seq<ImageOutput>>
    requires DetectorFits(data, imageNamesList, detect, classAgnostic) && NmsInRange(nms)
  {
    seq(|imageNamesList|, k requires 0 <= k < |imageNamesList| =>
          BatchOutputs(detect(data[k]), imageNamesList[k], classAgnostic, nms))
  }

  /** The progress line printed after batch `k`: it reads `im_names[0]`,
      which fails on an empty batch of names, and then divides by the count,
      which fails while the count is still 0. */
  function PrintFailure<T>(data: seq<Batch<T>>, imageNamesList: seq<seq<string>>, detect: Detector<T>, k: nat)
    : Option<Error>
    requires k < |imageNamesList| && k < |data|
  {
    if imageNamesList[k] == [] then Some(IndexError)
    else if TotalDetected(data[..k + 1], detect) == 0 then Some(ZeroDivisionError)
    else None
  }

  /** The first batch from `i` on whose progress line fails, or
      `|imageNamesList|` when none fails. */
  function FirstFailureFrom<T>(data: seq<Batch<T>>, imageNamesList: seq<seq<string>>, detect: Detector<T>, i: nat)
    : (f: nat)
    requires |imageNamesList| <= |data|
    ensures i <= |imageNamesList| ==> i <= f <= |imageNamesList|
    ensures f < |imageNamesList| ==> PrintFailure(data, imageNamesList, detect, f).Some?
    decreases |imageNamesList| - i
  {
    if i >= |imageNamesList| then |imageNamesList|
    else if PrintFailure(data, imageNamesList, detect, i).Some? then i
    else FirstFailureFrom(data, imageNamesList, detect, i + 1)
  }

  /** The test loop: per batch one detector call, `count += len(scores_all)`,
      the progress line, then the post-processing of each image of the
      batch. A failing progress line stops the run; the outputs of the
      batches before it have been produced. */
  method TestBatches<T>(data: seq<Batch<T>>, imageNamesList: seq<seq<string>>, detect: Detector<T>,
                        classAgnostic: bool, nms: Nms)
    returns (count: nat, outputs: seq<seq<ImageOutput>>, failure: Option<Error>)
    requires DetectorFits(data, imageNamesList, detect, classAgnostic) && NmsInRange(nms)
    ensures var f := FirstFailureFrom(data, imageNamesList, detect, 0);
      && failure == (if f < |imageNamesList| then PrintFailure(data, imageNamesList, detect, f) else None)
      && count == TotalDetected(data[..if f < |imageNamesList| then f + 1 else f], detect)
      && outputs == TestOutputs(data, imageNamesList[..f], detect, classAgnostic, nms)
  {
    count := 0;
    outputs := [];
    failure := None;
    var idx := 0;
    while idx < |imageNamesList|
      invariant 0 <= idx <= |imageNamesList|
      invariant FirstFailureFrom(data, imageNamesList, detect, 0) == FirstFailureFrom(data, imageNamesList, detect, idx)
      invariant count == TotalDetected(data[..idx], detect)
      invariant |outputs| == idx
      invariant forall k :: 0 <= k < idx ==>
        outputs[k] == BatchOutputs(detect(data[k]), imageNamesList[k], classAgnostic, nms)
    {
      var imNames := imageNamesList[idx];
      var results := detect(data[idx]);
      assert data[..idx + 1][..idx] == data[..idx];
      count := count + |results|;
      if imNames == [] {
        failure := Some(IndexError);
        return;
      }
      if count == 0 {
        failure := Some(ZeroDivisionError);
        return;
      }
      var batchOutputs: seq<ImageOutput> := [];
      var batchIdx := 0;
      while batchIdx < |results|
        invariant 0 <= batchIdx <= |results|
        invariant batchOutputs == BatchOutputs(results[..batchIdx], imNames, classAgnostic, nms)
      {
        var detsNms := PostprocessImage(results[batchIdx], classAgnostic, nms);
        batchOutputs := batchOutputs + [ImageOutput(imNames[batchIdx], detsNms)];
        assert results[..batchIdx + 1][..batchIdx] == results[..batchIdx];
        batchIdx := batchIdx + 1;
      }
      assert results[..|results|] == results;
      outputs := outputs + [batchOutputs];
      idx := idx + 1;
    }
    assert imageNamesList[..idx] == imageNamesList;
  }

  /** The count never decreases: after batch `k` it is at least what the
      first batch returned. */
  lemma {:induction false} TotalDetectedAtLeastFirst<T>(data: seq<Batch<T>>, detect: Detector<T>, k: nat)
    requires k < |data|
    ensures TotalDetected(data[..k + 1], detect) >= |detect(data[0])|
  {
    if k > 0 {
      TotalDetectedAtLeastFirst(data, detect, k - 1);
      assert data[..k + 1][..k] == data[..k];
    } else {
      assert data[..1][..0] == [];
    }
  }

  /** When no batch of names is empty, the run fails exactly when the first
      batch yields no detector result, and then it fails there, dividing by
      zero before any image is written. */
  lemma ZeroDivisionOnlyAtFirstBatch<T>(data: seq<Batch<T>>, imageNamesList: seq<seq<string>>, detect: Detector<T>)
    requires |imageNamesList| <= |data|
    requires forall k :: 0 <= k < |imageNamesList| ==> imageNamesList[k] != []
    ensures var f := FirstFailureFrom(data, imageNamesList, detect, 0);
      && (f < |imageNamesList| <==> |imageNamesList| > 0 && |detect(data[0])| == 0)
      && (f < |imageNamesList| ==> f == 0 && PrintFailure(data, imageNamesList, detect, f) == Some(ZeroDivisionError))
  {
    if |imageNamesList| > 0 {
      assert data[..1][..0] == [];
      assert TotalDetected(data[..1], detect) == |detect(data[0])|;
      if |detect(data[0])| != 0 {
        NoFailureFrom(data, imageNamesList, detect, 0);
      }
    }
  }

  /** With non-empty batches of names and a first batch with a result, no
      progress line from `i` on fails. */
  lemma {:induction false} NoFailureFrom<T>(data: seq<Batch<T>>, imageNamesList: seq<seq<string>>,
                                            detect: Detector<T>, i: nat)
    requires |imageNamesList| <= |data| && i <= |imageNamesList|
    requires forall k :: 0 <= k < |imageNamesList| ==> imageNamesList[k] != []
    requires |imageNamesList| > 0 ==> |detect(data[0])| > 0
    ensures FirstFailureFrom(data, imageNamesList, detect, i) == |imageNamesList|
    decreases |imageNamesList| - i
  {
    if i < |imageNamesList| {
      TotalDetectedAtLeastFirst(data, detect, i);
      NoFailureFrom(data, imageNamesList, detect, i + 1);
    }
  }

  /** When the detector returns one result per image of each batch, the count
      is the number of images in the batches. */
  lemma {:induction false} CountIsImageTotal<T>(data: seq<Batch<T>>, imageNamesList: seq<seq<string>>,
                                                detect: Detector<T>)
    requires |data| == |imageNamesList|
    requires forall k :: 0 <= k < |data| ==> |detect(data[k])| == |imageNamesList[k]|
    ensures TotalDetected(data, detect) == |Flatten(imageNamesList)|
  {
    if data != [] {
      var n := |data| - 1;
      CountIsImageTotal(data[..n], imageNamesList[..n], detect);
      FlattenAppend(imageNamesList[..n], [imageNamesList[n]]);
      assert imageNamesList[..n] + [imageNamesList[n]] == imageNamesList;
      assert Flatten([imageNamesList[n]]) == imageNamesList[n] + Flatten([]);
    }
  }

  /** Every batch holds an image, so with one result per image the count is
      positive after each batch and the running average `time / count`
      never divides by zero. */
  lemma CountPositiveAfterEachBatch<T>(imageNames: seq<string>, batchSize: nat, prepare: string -> Prepared<T>,
                                       detect: Detector<T>, classAgnostic: bool, k: nat)
    requires batchSize >= 1
    requires OneResultPerImage(BatchesOf(Chunks(imageNames, batchSize), prepare), detect, classAgnostic)
    requires k < |Chunks(imageNames, batchSize)|
    ensures TotalDetected(BatchesOf(Chunks(imageNames, batchSize), prepare)[..k + 1], detect) >= 1
  {
    var names := Chunks(imageNames, batchSize);
    var data := BatchesOf(names, prepare);
    ChunksSizes(imageNames, batchSize);
    assert |names[k]| >= 1;
    assert |data[k].tensors| == |TensorsOf(names[k], prepare)|;
    assert data[..k + 1][..k] == data[..k];
  }

  function OutputNames(outs: seq<ImageOutput>): seq<string>
  {
    seq(|outs|, i requires 0 <= i < |outs| => outs[i].name)
  }

  /** The detector's contract: one well-shaped result per image of each batch. */
  ghost predicate OneResultPerImage<T>(data: seq<Batch<T>>, detect: Detector<T>, classAgnostic: bool)
  {
    forall k :: 0 <= k < |data| ==>
      && |detect(data[k])| == |data[k].tensors|
      && forall i :: 0 <= i < |detect(data[k])| ==> WellShaped(detect(data[k])[i], classAgnostic)
  }

  /** End to end: with batches assembled from `imageNames` and a detector
      that returns one result per image, every image is counted once and
      gets exactly one output, named after it, in the input order. */
  lemma EveryImageProcessedOnce<T>(imageNames: seq<string>, batchSize: nat, prepare: string -> Prepared<T>,
                                   detect: Detector<T>, classAgnostic: bool, nms: Nms)
    requires batchSize >= 1 && NmsInRange(nms)
    requires OneResultPerImage(BatchesOf(Chunks(imageNames, batchSize), prepare), detect, classAgnostic)
    ensures var names := Chunks(imageNames, batchSize);
      var data := BatchesOf(names, prepare);
      && DetectorFits(data, names, detect, classAgnostic)
      && TotalDetected(data, detect) == |imageNames|
      && var outs := TestOutputs(data, names, detect, classAgnostic, nms);
         Flatten(seq(|outs|, k requires 0 <= k < |outs| => OutputNames(outs[k]))) == imageNames
  {
    var names := Chunks(imageNames, batchSize);
    var data := BatchesOf(names, prepare);
    forall k | 0 <= k < |data|
      ensures |detect(data[k])| == |names[k]|
    {
      assert |data[k].tensors| == |TensorsOf(names[k], prepare)|;
    }
    assert DetectorFits(data, names, detect, classAgnostic);
    CountIsImageTotal(data, names, detect);
    FlattenChunks(imageNames, batchSize);
    var outs := TestOutputs(data, names, detect, classAgnostic, nms);
    forall k | 0 <= k < |outs|
      ensures OutputNames(outs[k]) == names[k]
    {
      assert OutputNames(outs[k]) == names[k];
    }
    assert seq(|outs|, k requires 0 <= k < |outs| => OutputNames(outs[k])) == names;
  }

  /** With batches assembled from a non-empty list of names and a detector
      that returns one result per image, no progress line fails: every batch
      has a first name and the count is positive when it is divided by. */
  lemma AssembledRunDoesNotFail<T>(imageNames: seq<string>, batchSize: nat, prepare: string -> Prepared<T>,
                                   detect: Detector<T>, classAgnostic: bool)
    requires batchSize >= 1
    requires OneResultPerImage(BatchesOf(Chunks(imageNames, batchSize), prepare), detect, classAgnostic)
    ensures var names := Chunks(imageNames, batchSize);
      FirstFailureFrom(BatchesOf(names, prepare), names, detect, 0) == |names|
  {
    var names := Chunks(imageNames, batchSize);
    var data := BatchesOf(names, prepare);
    ChunksSizes(imageNames, batchSize);
    if |names| > 0 {
      assert |data[0].tensors| == |TensorsOf(names[0], prepare)|;
    }
    NoFailureFrom(data, names, detect, 0);
  }
}
