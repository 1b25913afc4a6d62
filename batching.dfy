/** Batch assembly of the demo driver (rfcn/demo_batch.py, lines 71-93).

    The driver walks the ordered image names, prepares each image (read,
    resize, normalise: an opaque step here) and appends its tensor, its
    `im_info` row [height, width, scale] and its name to three
    accumulators, flushing them into `data` and `image_names_list` after
    every `batch_size`-th image and after the last one. */
module Batching {

  /** The `im_info` row of one image: padded tensor height and width and
      the resize factor. */
  datatype ImInfo = ImInfo(height: int, width: int, scale: real)

  /** What preparing one image yields: its tensor (opaque) and its `im_info`. */
  datatype Prepared<T> = Prepared(tensor: T, info: ImInfo)

  /** One element of `data`: the stacked tensors and `im_info` rows of a batch. */
  datatype Batch<T> = Batch(tensors: seq<T>, infos: seq<ImInfo>)

  /** The batch size the demo hard-codes. */
  const DemoBatchSize: nat := 10

  // ---------------------------------------------------------------------
  // Arithmetic on Euclidean division by a positive divisor

  lemma MulAtLeast(d: int, b: int)
    requires d >= 1 && b >= 0
    ensures d * b >= b
    decreases d
  {
    if d > 1 {
      MulAtLeast(d - 1, b);
      assert d * b == (d - 1) * b + b;
    }
  }

  lemma DivModUnique(x: int, b: int, q: int, r: int)
    requires b > 0 && 0 <= r < b && x == q * b + r
    ensures x / b == q && x % b == r
  {
    var q0, r0 := x / b, x % b;
    assert x == q0 * b + r0;
    if q0 < q {
      assert q * b == (q - q0) * b + q0 * b;
      MulAtLeast(q - q0, b);
    } else if q0 > q {
      assert q0 * b == (q0 - q) * b + q * b;
      MulAtLeast(q0 - q, b);
    }
  }

  lemma DivModStep(x: int, b: int)
    requires b > 0 && x >= 0
    ensures (x + b) / b == x / b + 1 && (x + b) % b == x % b
  {
    DivModUnique(x + b, b, x / b + 1, x % b);
  }

  // ---------------------------------------------------------------------
  // The specification: cutting a sequence into batches

  function Min(a: int, b: int): int { if a <= b then a else b }

  /** The batches of `s`: consecutive pieces of `b` items, the last piece
      holding what remains. */
  function Chunks<X>(s: seq<X>, b: nat): seq<seq<X>>
    requires b >= 1
    decreases |s|
  {
    if s == [] then []
    else
      var k := Min(b, |s|);
      [s[..k]] + Chunks(s[k..], b)
  }

  /** Concatenation of a sequence of sequences, in order. */
  function Flatten<X>(ss: seq<seq<X>>): seq<X>
  {
    if ss == [] then [] else ss[0] + Flatten(ss[1..])
  }

  lemma {:induction false} FlattenAppend<X>(a: seq<seq<X>>, c: seq<seq<X>>)
    ensures Flatten(a + c) == Flatten(a) + Flatten(c)
  {
    if a == [] {
      assert a + c == c;
    } else {
      assert (a + c)[0] == a[0];
      assert (a + c)[1..] == a[1..] + c;
      FlattenAppend(a[1..], c);
    }
  }

  /** Concatenating the batches gives back the input, in order. */
  lemma {:induction false} FlattenChunks<X>(s: seq<X>, b: nat)
    requires b >= 1
    ensures Flatten(Chunks(s, b)) == s
    decreases |s|
  {
    if s != [] {
      var k := Min(b, |s|);
      FlattenChunks(s[k..], b);
      assert s[..k] + s[k..] == s;
    }
  }

  /** There are ceil(|s| / b) batches. */
  lemma {:induction false} ChunksCount<X>(s: seq<X>, b: nat)
    requires b >= 1
    ensures |Chunks(s, b)| == (|s| + b - 1) / b
    decreases |s|
  {
    if s == [] {
      DivModUnique(b - 1, b, 0, b - 1);
    } else if |s| <= b {
      DivModUnique(|s| + b - 1, b, 1, |s| - 1);
    } else {
      ChunksCount(s[b..], b);
      DivModStep(|s| - 1, b);
    }
  }

  /** Every batch but the last is full; the last holds between 1 and `b`
      items, namely `|s| % b` when that is not zero. */
  lemma {:induction false} ChunksSizes<X>(s: seq<X>, b: nat)
    requires b >= 1
    ensures var c := Chunks(s, b);
      && (forall k :: 0 <= k < |c| - 1 ==> |c[k]| == b)
      && (s != [] ==> 1 <= |c[|c| - 1]| <= b)
      && (s != [] && |s| % b != 0 ==> |c[|c| - 1]| == |s| % b)
      && (s != [] && |s| % b == 0 ==> |c[|c| - 1]| == b)
    decreases |s|
  {
    if s == [] {
    } else if |s| <= b {
      if |s| < b {
        DivModUnique(|s|, b, 0, |s|);
      } else {
        DivModUnique(|s|, b, 1, 0);
      }
    } else {
      var rest := s[b..];
      ChunksSizes(rest, b);
      DivModStep(|rest|, b);
      var c := Chunks(s, b);
      assert c == [s[..b]] + Chunks(rest, b);
    }
  }

  /** Item `p` of the input is item `p % b` of batch `p / b`: each item sits
      in exactly one batch, at a position fixed by its index. */
  lemma {:induction false} ChunksAt<X>(s: seq<X>, b: nat, p: nat)
    requires b >= 1 && p < |s|
    ensures var c := Chunks(s, b);
      p / b < |c| && p % b < |c[p / b]| && c[p / b][p % b] == s[p]
    decreases |s|
  {
    if p < b {
      DivModUnique(p, b, 0, p);
    } else {
      ChunksAt(s[b..], b, p - b);
      DivModStep(p - b, b);
    }
  }

  /** Appending a batch of 1 to `b` items after `m` full batches adds
      exactly that batch. */
  lemma {:induction false} ChunksSnoc<X>(s: seq<X>, t: seq<X>, b: nat, m: nat)
    requires b >= 1 && |s| == m * b && 1 <= |t| <= b
    ensures Chunks(s + t, b) == Chunks(s, b) + [t]
    decreases m
  {
    if m == 0 {
      assert s == [];
      assert s + t == t;
      assert t[..|t|] == t;
      assert t[|t|..] == [];
    } else {
      assert |s| >= b;
      assert (s + t)[..b] == s[..b];
      assert (s + t)[b..] == s[b..] + t;
      ChunksSnoc(s[b..], t, b, m - 1);
    }
  }

  /** `k` full batches of `b` items: `k * b`, written without multiplication. */
  function Span(k: nat, b: nat): nat
  {
    if k == 0 then 0 else Span(k - 1, b) + b
  }

  lemma {:induction false} SpanIsProduct(k: nat, b: nat)
    ensures Span(k, b) == k * b
  {
    if k > 0 {
      SpanIsProduct(k - 1, b);
      assert k * b == (k - 1) * b + b;
    }
  }

  /** `ChunksPrefix` with the product written as `Span`, which keeps the
      induction linear. */
  lemma {:induction false} ChunksPrefixSpan<X>(s: seq<X>, b: nat, k: nat)
    requires b >= 1 && k < |Chunks(s, b)|
    ensures Min(Span(k + 1, b), |s|) <= |s|
    ensures Flatten(Chunks(s, b)[..k + 1]) == s[..Min(Span(k + 1, b), |s|)]
    decreases |s|
  {
    var c := Chunks(s, b);
    var len := Min(b, |s|);
    var rest := Chunks(s[len..], b);
    assert c == [s[..len]] + rest;
    if k == 0 {
      assert c[..1] == [s[..len]];
      assert Flatten(c[..1]) == s[..len] + Flatten(c[1..1]);
    } else {
      ChunksPrefixSpan(s[len..], b, k - 1);
      assert len == b;
      var e' := Min(Span(k, b), |s| - b);
      assert Min(Span(k + 1, b), |s|) == b + e';
      assert c[..k + 1] == [s[..b]] + rest[..k];
      calc {
        Flatten(c[..k + 1]);
        s[..b] + Flatten(rest[..k]);
        s[..b] + s[b..][..e'];
        { assert s[..b] + s[b..][..e'] == s[..b + e']; }
        s[..b + e'];
      }
    }
  }

  /** The first `k + 1` batches hold exactly the first
      `min((k + 1) * b, |s|)` items. */
  lemma ChunksPrefix<X>(s: seq<X>, b: nat, k: nat)
    requires b >= 1 && k < |Chunks(s, b)|
    ensures Min((k + 1) * b, |s|) <= |s|
    ensures Flatten(Chunks(s, b)[..k + 1]) == s[..Min((k + 1) * b, |s|)]
  {
    ChunksPrefixSpan(s, b, k);
    SpanIsProduct(k + 1, b);
  }

  /** The flush condition of the loop: after the image at `idx`, of `n`. */
  predicate FlushAfter(idx: nat, n: nat, b: nat)
    requires b >= 1
  {
    (idx + 1) % b == 0 || idx == n - 1
  }

  /** How many items the first `k + 1` batches of `c` hold: the position
      just past the last item of batch `k`. */
  function BatchEnd<X>(c: seq<seq<X>>, k: nat): nat
    requires k < |c|
  {
    |Flatten(c[..k + 1])|
  }

  lemma FlushAtBatchEnd<X>(s: seq<X>, b: nat, idx: nat) returns (k: nat)
    requires b >= 1 && idx < |s| && FlushAfter(idx, |s|, b)
    ensures k < |Chunks(s, b)| && BatchEnd(Chunks(s, b), k) == idx + 1
  {
    var c := Chunks(s, b);
    if idx == |s| - 1 {
      assert c != [];
      k := |c| - 1;
      assert c[..k + 1] == c;
      FlattenChunks(s, b);
    } else {
      var q := (idx + 1) / b;
      DivModUnique(idx + 1, b, q, 0);
      k := q - 1;
      DivModUnique(idx, b, k, b - 1);
      ChunksAt(s, b, idx);
      ChunksPrefix(s, b, k);
    }
  }

  lemma BatchEndFlushes<X>(s: seq<X>, b: nat, k: nat)
    requires b >= 1 && k < |Chunks(s, b)|
    ensures var e := BatchEnd(Chunks(s, b), k);
      1 <= e <= |s| && FlushAfter(e - 1, |s|, b)
  {
    ChunksPrefix(s, b, k);
    if (k + 1) * b <= |s| {
      DivModUnique((k + 1) * b, b, k + 1, 0);
    }
  }

  /** The loop flushes after image `idx` exactly when `idx` is the last image
      of one of the batches. */
  lemma FlushIffBatchEnd<X>(s: seq<X>, b: nat, idx: nat)
    requires b >= 1 && idx < |s|
    ensures FlushAfter(idx, |s|, b) <==>
      exists k :: 0 <= k < |Chunks(s, b)| && BatchEnd(Chunks(s, b), k) == idx + 1
  {
    var c := Chunks(s, b);
    if FlushAfter(idx, |s|, b) {
      var k := FlushAtBatchEnd(s, b, idx);
    } else {
      if k :| 0 <= k < |c| && BatchEnd(c, k) == idx + 1 {
        BatchEndFlushes(s, b, k);
      }
    }
  }

  /** The demo's scenario: 23 images in batches of 10 give batches of 10, 10
      and 3 images. */
  lemma DemoBatchSizes<X>(s: seq<X>)
    requires |s| == 23
    ensures var c := Chunks(s, DemoBatchSize);
      |c| == 3 && |c[0]| == 10 && |c[1]| == 10 && |c[2]| == 3
  {
    ChunksCount(s, DemoBatchSize);
    ChunksSizes(s, DemoBatchSize);
  }

  /** With no image there is no batch, and with some image there is one. */
  lemma NoBatchIffNoImage<X>(s: seq<X>, b: nat)
    requires b >= 1
    ensures Chunks(s, b) == [] <==> s == []
  {
  }

  // ---------------------------------------------------------------------
  // Preparing images and stacking batches

  function TensorsOf<T>(names: seq<string>, prepare: string -> Prepared<T>): seq<T>
  {
    seq(|names|, i requires 0 <= i < |names| => prepare(names[i]).tensor)
  }

  function InfosOf<T>(names: seq<string>, prepare: string -> Prepared<T>): seq<ImInfo>
  {
    seq(|names|, i requires 0 <= i < |names| => prepare(names[i]).info)
  }

  /** The element of `data` built from the batch of names `names`. */
  function BatchOf<T>(names: seq<string>, prepare: string -> Prepared<T>): Batch<T>
  {
    Batch(TensorsOf(names, prepare), InfosOf(names, prepare))
  }

  function BatchesOf<T>(namesList: seq<seq<string>>, prepare: string -> Prepared<T>): seq<Batch<T>>
  {
    seq(|namesList|, k requires 0 <= k < |namesList| => BatchOf(namesList[k], prepare))
  }

  /** Batch `k` of `data` holds as many tensors and `im_info` rows as batch
      `k` of the names holds names, each at the index of its name. */
  lemma BatchesAligned<T>(namesList: seq<seq<string>>, prepare: string -> Prepared<T>, k: nat, i: nat)
    requires k < |namesList| && i < |namesList[k]|
    ensures var data := BatchesOf(namesList, prepare);
      && |data| == |namesList|
      && |data[k].tensors| == |data[k].infos| == |namesList[k]|
      && data[k].tensors[i] == prepare(namesList[k][i]).tensor
      && data[k].infos[i] == prepare(namesList[k][i]).info
  {
  }

  lemma PreparedAppend<T>(names: seq<string>, x: string, prepare: string -> Prepared<T>)
    ensures TensorsOf(names + [x], prepare) == TensorsOf(names, prepare) + [prepare(x).tensor]
    ensures InfosOf(names + [x], prepare) == InfosOf(names, prepare) + [prepare(x).info]
  {
    assert TensorsOf(names + [x], prepare) == TensorsOf(names, prepare) + [prepare(x).tensor];
    assert InfosOf(names + [x], prepare) == InfosOf(names, prepare) + [prepare(x).info];
  }

  lemma BatchesAppend<T>(namesList: seq<seq<string>>, names: seq<string>, prepare: string -> Prepared<T>)
    ensures BatchesOf(namesList + [names], prepare) == BatchesOf(namesList, prepare) + [BatchOf(names, prepare)]
  {
    assert BatchesOf(namesList + [names], prepare) == BatchesOf(namesList, prepare) + [BatchOf(names, prepare)];
  }

  /** After `m` full batches (`flushed` names) and a pending batch that ends
      at `idx`, flushing when `(idx + 1) % b == 0` or at the last name keeps
      the batches equal to the chunks of the names seen so far. */
  lemma FlushStep<X>(s: seq<X>, b: nat, m: nat, flushed: nat, idx: nat)
    requires b >= 1 && flushed == m * b && flushed <= idx < |s| && idx - flushed < b
    ensures var flush := (idx + 1) % b == 0 || idx == |s| - 1;
      && (flush ==> Chunks(s[..idx + 1], b) == Chunks(s[..flushed], b) + [s[flushed..idx + 1]])
      && (flush && idx + 1 < |s| ==> idx + 1 == (m + 1) * b)
      && (!flush ==> idx + 1 - flushed < b)
  {
    var size := idx + 1 - flushed;
    if size < b {
      DivModUnique(idx + 1, b, m, size);
    } else {
      DivModUnique(idx + 1, b, m + 1, 0);
    }
    if (idx + 1) % b == 0 || idx == |s| - 1 {
      ChunksSnoc(s[..flushed], s[flushed..idx + 1], b, m);
      assert s[..flushed] + s[flushed..idx + 1] == s[..idx + 1];
    }
  }

  /** The batching loop: returns `data`, `image_names_list` and the three
      accumulators as they stand after the loop. */
  method AssembleBatches<T>(imageNames: seq<string>, batchSize: nat, prepare: string -> Prepared<T>)
    returns (data: seq<Batch<T>>, imageNamesList: seq<seq<string>>,
             curImTensor: seq<T>, imInfoTensor: seq<ImInfo>, imageNamesBatch: seq<string>)
    requires batchSize >= 1
    ensures imageNamesList == Chunks(imageNames, batchSize)
    ensures data == BatchesOf(imageNamesList, prepare)
    ensures Flatten(imageNamesList) == imageNames
    ensures curImTensor == [] && imInfoTensor == [] && imageNamesBatch == []
  {
    data, imageNamesList := [], [];
    curImTensor, imInfoTensor, imageNamesBatch := [], [], [];
    var n := |imageNames|;
    ghost var flushed: nat := 0;
    var idx := 0;
    while idx < n
      invariant flushed <= idx <= n
      invariant imageNamesList == Chunks(imageNames[..flushed], batchSize)
      invariant data == BatchesOf(imageNamesList, prepare)
      invariant imageNamesBatch == imageNames[flushed..idx]
      invariant curImTensor == TensorsOf(imageNamesBatch, prepare)
      invariant imInfoTensor == InfosOf(imageNamesBatch, prepare)
      invariant idx < n ==> flushed == |imageNamesList| * batchSize && idx - flushed < batchSize
      invariant idx == n ==> flushed == n
    {
      var imName := imageNames[idx];
      var prepared := prepare(imName);
      PreparedAppend(imageNamesBatch, imName, prepare);
      curImTensor := curImTensor + [prepared.tensor];
      imInfoTensor := imInfoTensor + [prepared.info];
      imageNamesBatch := imageNamesBatch + [imName];
      assert imageNamesBatch == imageNames[flushed..idx + 1];
      FlushStep(imageNames, batchSize, |imageNamesList|, flushed, idx);
      if (idx + 1) % batchSize == 0 || idx == n - 1 {
        BatchesAppend(imageNamesList, imageNamesBatch, prepare);
        data := data + [Batch(curImTensor, imInfoTensor)];
        curImTensor, imInfoTensor := [], [];
        imageNamesList := imageNamesList + [imageNamesBatch];
        imageNamesBatch := [];
        flushed := idx + 1;
      }
      idx := idx + 1;
    }
    assert imageNames[..n] == imageNames;
    FlattenChunks(imageNames, batchSize);
  }
}
