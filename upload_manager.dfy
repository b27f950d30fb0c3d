/**
 * The upload manager: it routes a file to a single PUT or to a resumable
 * multipart upload, and runs the multipart upload as a dispatcher handing out
 * part numbers, workers uploading them and a collector that checkpoints every
 * finished part before completing the upload.
 *
 * The workers and channels are sequentialised: the collector repeatedly takes
 * one of the parts currently uploading (any of them), so every interleaving of
 * part completions is covered. Calls to the object store, the file system and
 * the checkpoint store are outcomes supplied by an `Env`.
 */
module UploadEngine {
  import opened Wrappers
  import opened Strings
  import opened Heap
  import opened Sorting
  import opened UploadParts
  import opened UploadCheckpoint
  import opened UploadDispatch
  import Mon = UploadStatusMonitor

  /** Path, size and SHA-256 of a file, gathered before uploading. */
  datatype FileInfo = FileInfo(path: string, size: int, sha256: string)

  datatype UploadError =
    | FileInfoNotFound
    | PartSizeUnparsable
    | ObjectTooLarge
    | MkdirFailed
    | StoreOpenFailed
    | ReconcileFailed(reconcileError: ReconcileError)
    | PartInfoFailed(partInfoError: PartInfoError)
    | OpenFailed
    | PartFailed(part: int)
    | BatchPutFailed
    | SizeMismatch(uploadedSize: int, fileSize: int)
    | Stalled
    | Deadlocked
    | CompleteFailed
    | DeleteFailed
    | PutFailed
    | ParseUrlFailed
    | ParseTagsFailed
    | InvalidUploadUrl

  /**
   * Outcomes of everything outside the model: creating the uploader directory, opening the
   * checkpoint store, ListObjectParts (part count per upload id, None on error), resetting the
   * store, NewMultipartUpload, opening the file, PutObjectPart (the ETag per part number, None on
   * error), the n-th checkpoint batch write, CompleteMultipartUpload, deleting the store, and the
   * single-request PUT.
   */
  datatype Env = Env(
    mkdirOk: bool,
    storeOpens: bool,
    listParts: string -> Option<nat>,
    resetOk: bool,
    newUpload: Option<string>,
    fileOpens: bool,
    putPart: int -> Option<string>,
    batchPutOk: nat -> bool,
    completeOk: bool,
    deleteOk: bool,
    putOk: bool)

  /** A CompleteMultipartUpload request that succeeded. */
  datatype Completion = Completion(bucket: string, key: string, uploadId: string, parts: seq<CompletePart>)

  /** A single-request PUT that succeeded. */
  datatype Put = Put(bucket: string, key: string, path: string, tags: map<string, string>)

  /** The user tag that names the record a file is uploaded to. */
  const RecordIdTag: string := "X-COS-RECORD-ID"

  /** The checkpoint store of a file: a missing record id tag counts as "". */
  function StoreKeyFor(tags: map<string, string>, sha256: string, path: string): StoreKey {
    StoreKey(if RecordIdTag in tags then tags[RecordIdTag] else "", sha256, path)
  }

  /** The outcomes on which the source's upload never returns. */
  predicate Hangs(e: UploadError) {
    e == Stalled || e == Deadlocked
  }

  /** A status-only update message for the monitor. */
  function StatusMsg(name: string, status: Mon.UploadStatus): Mon.Msg {
    Mon.UpdateStatusMsg(name, 0, 0, status)
  }

  // ---------------------------------------------------------------------------------------------
  // Parts collected by the multipart upload

  /** The parts to complete for the part numbers in `order`, each with the ETag its upload returned. */
  function PartsFor(putPart: int -> Option<string>, order: seq<int>): (r: seq<CompletePart>)
    ensures |r| == |order|
  {
    if order == [] then []
    else PartsFor(putPart, order[..|order| - 1]) + [Receipt(putPart, order[|order| - 1])]
  }

  /** The completed part for part number `p`. */
  function Receipt(putPart: int -> Option<string>, p: int): CompletePart {
    CompletePart(putPart(p).GetOr(""), p)
  }

  /** Entry `i` of the collected parts is the receipt of the `i`-th part collected. */
  lemma {:induction false} PartsForAt(putPart: int -> Option<string>, order: seq<int>, i: int)
    requires 0 <= i < |order|
    ensures PartsFor(putPart, order)[i] == Receipt(putPart, order[i])
  {
    if i < |order| - 1 {
      PartsForAt(putPart, order[..|order| - 1], i);
    }
  }

  /** Collecting one more part appends its receipt. */
  lemma PartsForSnoc(putPart: int -> Option<string>, parts0: seq<CompletePart>, order: seq<int>, p: int)
    ensures parts0 + PartsFor(putPart, order + [p]) == (parts0 + PartsFor(putPart, order)) + [Receipt(putPart, p)]
  {
    assert (order + [p])[..|order|] == order;
  }

  /** Bytes held by the parts in `order`. */
  function BytesOf(g: Geometry, order: seq<int>): int {
    if order == [] then 0 else BytesOf(g, order[..|order| - 1]) + PartLength(g, order[|order| - 1])
  }

  function Elements(s: seq<int>): set<int> {
    set x | x in s
  }

  /** Collecting one more part adds its length. */
  lemma BytesOfSnoc(g: Geometry, order: seq<int>, p: int)
    ensures BytesOf(g, order + [p]) == BytesOf(g, order) + PartLength(g, p)
  {
    assert (order + [p])[..|order|] == order;
  }

  /** No part number occurs twice: there are as many different numbers as entries. */
  predicate Distinct(s: seq<int>) {
    |Elements(s)| == |s|
  }

  /** Appending a number not yet present keeps a list free of repeats. */
  lemma DistinctSnoc(s: seq<int>, x: int)
    requires Distinct(s) && x !in s
    ensures Distinct(s + [x])
  {
    assert Elements(s + [x]) == Elements(s) + {x};
  }

  /** The dispatcher hands parts out in increasing order, hence never twice. */
  lemma {:induction false} IncreasingDistinct(s: seq<int>)
    requires StrictlyIncreasing(s)
    ensures Distinct(s)
  {
    if s != [] {
      var init := s[..|s| - 1];
      IncreasingDistinct(init);
      assert s == init + [s[|s| - 1]];
      DistinctSnoc(init, s[|s| - 1]);
    }
  }

  lemma {:induction false} ElementsAtMost(s: seq<int>)
    ensures |Elements(s)| <= |s|
  {
    if s != [] {
      var init := s[..|s| - 1];
      ElementsAtMost(init);
      assert Elements(s) == Elements(init) + {s[|s| - 1]};
    }
  }

  lemma {:induction false} SubsetSize(a: set<int>, b: set<int>)
    requires a <= b
    ensures |a| <= |b|
    decreases |a|
  {
    if a != {} {
      NonEmptyHasElement(a);
      var x :| x in a;
      SubsetSize(a - {x}, b - {x});
    }
  }

  /** A list of distinct numbers longer than `b` has an element `b` lacks. */
  lemma Pigeonhole(a: seq<int>, b: seq<int>)
    requires Distinct(a) && |b| < |a|
    ensures exists x :: x in a && x !in b
  {
    ElementsAtMost(b);
    var ea, eb := Elements(a), Elements(b);
    SubsetSize(ea * eb, eb);
    assert |ea - eb| == |ea| - |ea * eb|;
    NonEmptyHasElement(ea - eb);
    var x :| x in ea - eb;
    assert x in a && x !in b;
  }

  /**
   * While the collector still waits for a part, some handed-out part has not been collected:
   * either a part is uploading, or (nothing uploading) every missing part was handed out, which
   * is more than the collector has received.
   */
  lemma SomePartUploading(sent: seq<int>, order: seq<int>, inFlight: set<int>, missing: int)
    requires Distinct(sent)
    requires forall x :: x in inFlight <==> x in sent && x !in order
    requires inFlight == {} ==> |sent| == missing
    requires |order| < missing
    ensures exists x :: x in sent && x !in order
  {
    if |order| < |sent| {
      Pigeonhole(sent, order);
    } else {
      assert inFlight != {};
      NonEmptyHasElement(inFlight);
      var y :| y in inFlight;
      assert y in sent && y !in order;
    }
  }

  /** Parts appended by a fill come after every part handed out before, so they are new. */
  lemma AppendedAreNew(s: seq<int>, k: int)
    requires StrictlyIncreasing(s) && 0 <= k <= |s|
    ensures forall x :: x in s[k..] ==> x !in s[..k]
  {
    forall x | x in s[k..]
      ensures x !in s[..k]
    {
      var i :| 0 <= i < |s[k..]| && s[k..][i] == x;
      assert s[k + i] == x;
    }
  }

  /**
   * One collector step seen from the dispatcher: acknowledging an uploading part `p` and refilling
   * keeps "uploading" equal to "handed out and not yet collected", and leaves nothing uploading
   * only once every missing part has been handed out.
   */
  lemma AckThenFill(done: seq<int>, total: int, w: int, start: int, s: Window, p: int, order: seq<int>)
    requires w >= 1 && WindowOk(done, total, start, s)
    requires p in s.inFlight
    requires forall x :: x in s.inFlight <==> x in s.sent && x !in order
    requires forall x :: x in order ==> x in s.sent
    ensures s.sent <= FillWindow(done, total, w, AckCorrected(done, total, s, p)).sent
    ensures forall x :: x in FillWindow(done, total, w, AckCorrected(done, total, s, p)).inFlight <==>
      x in FillWindow(done, total, w, AckCorrected(done, total, s, p)).sent && x !in order + [p]
    ensures FillWindow(done, total, w, AckCorrected(done, total, s, p)).inFlight == {} ==>
      |FillWindow(done, total, w, AckCorrected(done, total, s, p)).sent| == Missing(done, start, total)
  {
    var acked := AckCorrected(done, total, s, p);
    AckKeepsWindowOk(done, total, w, start, s, p);
    assert acked.sent == s.sent;
    assert forall x :: x in acked.inFlight <==> x in s.sent && x !in order + [p];
    FillTracksUncollected(done, total, w, start, acked, order + [p]);
    AckedFillLive(done, total, w, start, acked);
  }

  /**
   * One collector step with the acknowledgement as written: "uploading" stays equal to "handed
   * out and not yet collected" (whether anything is still uploading is not promised).
   */
  lemma AckAsWrittenThenFill(done: seq<int>, total: int, w: int, start: int, s: Window, p: int, order: seq<int>)
    requires w >= 1 && WindowOk(done, total, start, s)
    requires p in s.inFlight
    requires forall x :: x in s.inFlight <==> x in s.sent && x !in order
    requires forall x :: x in order ==> x in s.sent
    ensures s.sent <= FillWindow(done, total, w, AckAsWritten(w, s, p)).sent
    ensures forall x :: x in FillWindow(done, total, w, AckAsWritten(w, s, p)).inFlight <==>
      x in FillWindow(done, total, w, AckAsWritten(w, s, p)).sent && x !in order + [p]
  {
    var acked := AckAsWritten(w, s, p);
    AckKeepsWindowOk(done, total, w, start, s, p);
    assert acked.sent == s.sent;
    assert forall x :: x in acked.inFlight <==> x in s.sent && x !in order + [p];
    FillTracksUncollected(done, total, w, start, acked, order + [p]);
  }

  /** A fill adds the same new parts to "handed out" and to "uploading". */
  lemma FillTracksUncollected(done: seq<int>, total: int, w: int, start: int, s: Window, collected: seq<int>)
    requires WindowOk(done, total, start, s)
    requires forall x :: x in s.inFlight <==> x in s.sent && x !in collected
    requires forall x :: x in collected ==> x in s.sent
    ensures s.sent <= FillWindow(done, total, w, s).sent
    ensures forall x :: x in FillWindow(done, total, w, s).inFlight <==>
      x in FillWindow(done, total, w, s).sent && x !in collected
  {
    var r := FillWindow(done, total, w, s);
    FillAddsSent(done, total, w, s);
    FillKeepsWindowOk(done, total, w, start, s);
    AppendedAreNew(r.sent, |s.sent|);
    assert r.sent[..|s.sent|] == s.sent;
    assert r.sent == s.sent + r.sent[|s.sent|..];
  }

  /** After an acknowledgement, a fill leaves nothing uploading only when every missing part has been handed out. */
  lemma AckedFillLive(done: seq<int>, total: int, w: int, start: int, acked: Window)
    requires w >= 1 && WindowOk(done, total, start, acked)
    requires acked.inFlight == {} ==> acked.min == NextMissing(done, acked.cur, total)
    ensures FillWindow(done, total, w, acked).inFlight == {} ==>
      |FillWindow(done, total, w, acked).sent| == Missing(done, start, total)
  {
    if acked.inFlight == {} {
      CorrectedFillLeavesNothingBehind(done, total, w, start, acked);
    } else {
      NonEmptyHasElement(acked.inFlight);
      var y :| y in acked.inFlight;
      FillKeepsInFlight(done, total, w, acked, y);
    }
  }

  // ---------------------------------------------------------------------------------------------
  // Every part is uploaded once the collector is done

  /** A set of part numbers in `lo..hi`, none held by the checkpoint, is no larger than the count of missing parts. */
  lemma {:induction false} MissingBoundsDistinct(done: seq<int>, lo: int, hi: int, s: set<int>)
    requires forall x :: x in s ==> lo <= x <= hi && x !in done
    ensures |s| <= Missing(done, lo, hi)
    decreases hi - lo
  {
    if hi >= lo {
      MissingBoundsDistinct(done, lo, hi - 1, s - {hi});
      if hi in s {
        assert |s| == |s - {hi}| + 1;
      } else {
        assert s - {hi} == s;
      }
    } else {
      assert forall x :: x !in s;
      assert s == {};
    }
  }

  /** For a list of distinct part numbers, every number in `lo..hi` is either held or missing. */
  lemma {:induction false} MissingExact(done: seq<int>, lo: int, hi: int)
    requires lo - 1 <= hi
    requires StrictlyIncreasing(done)
    ensures Missing(done, lo, hi) + CountIn(done, lo, hi) == hi - lo + 1
    decreases hi - lo
  {
    if hi >= lo {
      MissingExact(done, lo, hi - 1);
      CountInStep(done, lo, hi);
    } else {
      CountInEmpty(done, lo, hi);
    }
  }

  lemma {:induction false} CountInEmpty(arr: seq<int>, lo: int, hi: int)
    requires hi < lo
    ensures CountIn(arr, lo, hi) == 0
  {
    if arr != [] {
      CountInEmpty(arr[1..], lo, hi);
    }
  }

  lemma {:induction false} CountInStep(arr: seq<int>, lo: int, hi: int)
    requires lo <= hi
    requires StrictlyIncreasing(arr)
    ensures CountIn(arr, lo, hi) == CountIn(arr, lo, hi - 1) + (if hi in arr then 1 else 0)
  {
    if arr != [] {
      assert StrictlyIncreasing(arr[1..]);
      CountInStep(arr[1..], lo, hi);
      if arr[0] == hi {
        assert hi !in arr[1..];
      }
      assert hi in arr <==> arr[0] == hi || hi in arr[1..];
    }
  }

  /** When every checkpoint part lies in `1..total`, the parts at or after `start` number
      `|done|` minus the `start - 1` parts below it. */
  lemma {:induction false} CountInAll(done: seq<int>, start: int, total: int)
    requires StrictlyIncreasing(done)
    requires forall i :: 0 <= i < |done| ==> 1 <= done[i] <= total
    requires MissingBoundary(done, start)
    ensures CountIn(done, start, total) == |done| - (start - 1)
  {
    IncreasingPositiveFacts(done, start);
    CountInSuffix(done, start, total, start - 1);
  }

  lemma IncreasingPositiveFacts(done: seq<int>, start: int)
    requires StrictlyIncreasing(done)
    requires forall i :: 0 <= i < |done| ==> 1 <= done[i]
    requires MissingBoundary(done, start)
    ensures forall k :: 0 <= k < start - 1 ==> done[k] < start
    ensures forall k :: start - 1 <= k < |done| ==> done[k] >= start
  {
    assert StrictlyIncreasingPositive(done);
    if start > 1 {
      IncreasingPositiveBounds(done, start - 2);
    }
    forall k | start - 1 <= k < |done|
      ensures done[k] >= start
    {
      IncreasingPositiveBounds(done, k);
      if k > start - 1 {
        assert done[k] > done[start - 1];
      }
    }
  }

  /** Counting from the first entry at or above `start`. */
  lemma {:induction false} CountInSuffix(arr: seq<int>, lo: int, hi: int, j: int)
    requires 0 <= j <= |arr|
    requires forall k :: 0 <= k < j ==> arr[k] < lo
    requires forall k :: j <= k < |arr| ==> lo <= arr[k] <= hi
    ensures CountIn(arr, lo, hi) == |arr| - j
  {
    if arr != [] {
      if j > 0 {
        CountInSuffix(arr[1..], lo, hi, j - 1);
      } else {
        CountInSuffix(arr[1..], lo, hi, 0);
      }
    }
  }

  /**
   * The collector's guarantee for a consistent checkpoint (distinct part numbers within the file):
   * once it has received `total - |done|` distinct new parts, each missing from the checkpoint,
   * every part of the file is either in the checkpoint or among the new parts.
   */
  lemma CollectCoversAllParts(done: seq<int>, total: int, start: int, order: seq<int>)
    requires StrictlyIncreasing(done)
    requires forall i :: 0 <= i < |done| ==> 1 <= done[i] <= total
    requires MissingBoundary(done, start)
    requires Distinct(order) && |order| == total - |done|
    requires forall x :: x in order ==> start <= x <= total && x !in done
    ensures forall p :: 1 <= p <= total ==> p in done || p in order
  {
    IncreasingPositiveFacts(done, start);
    CountInAll(done, start, total);
    MissingExact(done, start, total);
    assert Missing(done, start, total) == |order|;
    if start > 1 {
      IncreasingPositiveBounds(done, start - 2);
      forall p | 1 <= p < start
        ensures p in done
      {
        assert done[p - 1] == p;
      }
    }
    var gaps := set q | start <= q <= total && q !in done;
    var got := Elements(order);
    MissingBoundsDistinct(done, start, total, gaps);
    assert got <= gaps;
    assert gaps * got == got;
    assert |gaps - got| == |gaps| - |gaps * got|;
    assert gaps - got == {};
    forall p | 1 <= p <= total && p !in done
      ensures p in order
    {
      assert p in gaps;
    }
  }

  // ---------------------------------------------------------------------------------------------
  // The size check before completion

  /** What the size check tells the upload to do: stop with a result, or go on to completion. */
  datatype SizeVerdict = Stop(result: Option<UploadError>) | Proceed

  /** pkg/errors' Wrapf: wrapping a nil error gives nil. */
  function Wrapf(err: Option<UploadError>, wrapped: UploadError): (r: Option<UploadError>)
    ensures r.None? <==> err.None?
    ensures r.Some? ==> r.value == wrapped
  {
    if err.None? then None else Some(wrapped)
  }

  /** The size check as written: on a mismatch it wraps the function's `err`, which every path
      reaching the check leaves nil. */
  function SizeCheckAsWritten(uploadedSize: int, fileSize: int, err: Option<UploadError>): SizeVerdict {
    if uploadedSize != fileSize then Stop(Wrapf(err, SizeMismatch(uploadedSize, fileSize))) else Proceed
  }

  /** On a size mismatch the check as written returns success without completing the upload. */
  lemma SizeMismatchReportsSuccess(uploadedSize: int, fileSize: int)
    requires uploadedSize != fileSize
    ensures SizeCheckAsWritten(uploadedSize, fileSize, None) == Stop(None)
  {
  }

  /** The size check as intended: a mismatch is an error, and only matching sizes go on to completion. */
  function SizeCheck(uploadedSize: int, fileSize: int): (r: SizeVerdict)
    ensures r == Proceed <==> uploadedSize == fileSize
    ensures r.Stop? ==> r.result == Some(SizeMismatch(uploadedSize, fileSize))
  {
    if uploadedSize != fileSize then Stop(Some(SizeMismatch(uploadedSize, fileSize))) else Proceed
  }

  /**
   * A resumed upload whose part size grew since the checkpoint was written: parts 1 and 2 of
   * 5 MiB are stored (10 MiB), the 20 MiB file is now cut into two 10 MiB parts, so the
   * collector waits for nothing and 10 MiB were uploaded. The check as written reports success;
   * the corrected one stops with a size mismatch.
   */
  lemma ResumeWithLargerPartsSkipsCompletion()
    ensures var cp := Written("id", [CompletePart("e1", 1), CompletePart("e2", 2)], 10 * MiB);
      var g := OptimalPartInfo(20 * MiB, 10 * MiB);
      g == Ok(Geometry(2, 10 * MiB, 10 * MiB)) &&
      g.value.totalParts - |PartNumbers(StoredParts(cp))| == 0 &&
      StoredSize(cp) == 10 * MiB &&
      SizeCheckAsWritten(StoredSize(cp), 20 * MiB, None) == Stop(None) &&
      SizeCheck(StoredSize(cp), 20 * MiB) == Stop(Some(SizeMismatch(10 * MiB, 20 * MiB)))
  {
    CheckpointReadBack("id", [CompletePart("e1", 1), CompletePart("e2", 2)], 10 * MiB);
    assert CeilDiv(20 * MiB, 10 * MiB) == 2;
  }

  /**
   * A 1 GiB file in 32 MiB parts with 4 workers: the window holds 32 parts, the pipeline 17, so
   * the first fill never ends. With the default 128 MiB parts the window holds 8 parts, which fit.
   */
  lemma NarrowPipelineGeometry()
    ensures OptimalPartInfo(GiB, 32 * MiB) == Ok(Geometry(32, 32 * MiB, 32 * MiB))
    ensures WindowParts(32 * MiB, 32 * MiB) == 32 && Capacity(4) == 17
    ensures WindowParts(128 * MiB, 128 * MiB) == 8 <= Capacity(4)
  {
    assert CeilDiv(GiB, 32 * MiB) == 32;
  }

  // ---------------------------------------------------------------------------------------------
  // Upload URLs

  /** A parsed upload URL: its path, and its tagging query (None when it does not parse). */
  datatype UploadUrl = UploadUrl(path: string, tagging: Option<map<string, seq<string>>>)

  const DefaultBucketPrefix: string := "/default/"

  /** The object key of an upload URL path: the path must start with "/default/", and the key is the rest. */
  function UploadKey(path: string): (r: Result<string, UploadError>)
    ensures r.Ok? <==> StartsWith(path, DefaultBucketPrefix)
    ensures r.Ok? ==> DefaultBucketPrefix + r.value == path
    ensures r.Err? ==> r.error == InvalidUploadUrl
  {
    if StartsWith(path, DefaultBucketPrefix) then Ok(TrimPrefix(path, DefaultBucketPrefix)) else Err(InvalidUploadUrl)
  }

  /** One value per tag: the first value given for the key, or "" when it has none. */
  function FirstValues(query: map<string, seq<string>>): (r: map<string, string>)
    ensures r.Keys == query.Keys
    ensures forall k :: k in query && query[k] != [] ==> r[k] == query[k][0]
    ensures forall k :: k in query && query[k] == [] ==> r[k] == ""
  {
    map k | k in query :: if |query[k]| == 0 then "" else query[k][0]
  }

  // ---------------------------------------------------------------------------------------------
  // The dispatcher as the collector sees it

  /** The dispatcher is consistent, `order` (the parts collected) are distinct parts it handed out,
      and the parts uploading are exactly those handed out and not collected. */
  ghost predicate Tracks(d: Dispatcher, order: seq<int>)
    reads d, d.uploading
  {
    d.Valid() && MissingBoundary(d.done, d.start) &&
    Distinct(order) &&
    (forall x :: x in order ==> x in d.sent) &&
    (forall x :: x in d.Abstract().inFlight <==> x in d.sent && x !in order)
  }

  /** Nothing is uploading only once every missing part has been handed out. */
  ghost predicate Live(d: Dispatcher)
    reads d, d.uploading
  {
    d.Abstract().inFlight == {} ==> |d.sent| == Missing(d.done, d.start, d.total)
  }

  /**
   * How many parts the pipeline holds before the dispatcher's next send blocks: the part channel,
   * the result channel and the completion channel buffer `threads` parts each, every worker holds
   * one and the collector one. The dispatcher drains the completion channel only between fills,
   * so a fill that hands out more unacknowledged parts than this never ends. With no threads the
   * channels are unbuffered and no worker receives, so the first send already blocks.
   */
  function Capacity(threads: nat): nat {
    if threads == 0 then 0 else 4 * threads + 1
  }

  /** Creates the dispatcher and hands out the first window; without a checkpoint that is parts
      `1..w` of a file of at least `w` parts. */
  method StartDispatcher(done: seq<int>, total: int, w: int) returns (d: Dispatcher)
    requires w >= 1
    requires forall i, j :: 0 <= i < j < |done| ==> done[i] <= done[j]
    ensures fresh(d) && fresh(d.uploading)
    ensures Tracks(d, []) && Live(d) && d.done == done && d.total == total
    ensures total - |done| <= Missing(done, d.start, total)
    ensures |done| == 0 && w <= total ==> |d.sent| == w
  {
    d := new Dispatcher(done, total, w);
    ghost var initial := d.Abstract();
    d.Fill();
    CorrectedFillLeavesNothingBehind(done, total, w, d.start, initial);
    FillAddsSent(done, total, w, initial);
    assert d.sent[|initial.sent|..] == d.sent;
    EnoughMissing(done, d.start, total);
    if |done| == 0 && w <= total {
      assert done == [] && d.start == 1;
      FreshFillSendsWindow(total, w, initial);
    }
  }

  /** The part whose result arrives next: any part uploading. */
  method PickUploading(d: Dispatcher, order: seq<int>) returns (p: int)
    requires Tracks(d, order) && d.uploading.Len() > 0
    ensures p in d.Abstract().inFlight && p in d.sent && p !in order
    ensures 1 <= p <= d.total && p !in d.done
  {
    var i :| 0 <= i < |d.uploading.h|;
    p := d.uploading.h[i];
    assert p in d.Abstract().inFlight;
    var j :| 0 <= j < |d.sent| && d.sent[j] == p;
  }

  /** While the collector still waits for a part, a live dispatcher has a part uploading. */
  lemma LiveHasUploading(d: Dispatcher, order: seq<int>)
    requires Tracks(d, order) && Live(d)
    requires |order| < Missing(d.done, d.start, d.total)
    ensures d.uploading.Len() > 0
  {
    IncreasingDistinct(d.sent);
    SomePartUploading(d.sent, order, d.Abstract().inFlight, Missing(d.done, d.start, d.total));
    ghost var x :| x in d.sent && x !in order;
    assert x in d.uploading.h;
  }

  /**
   * When the collector has received `total - |done|` parts from a dispatcher started on a
   * consistent checkpoint (increasing part numbers within the file), every part of the file is
   * in the checkpoint or was collected.
   */
  lemma CollectedAll(d: Dispatcher, order: seq<int>)
    requires Tracks(d, order)
    requires d.total >= 0 && StrictlyIncreasing(d.done) && forall i :: 0 <= i < |d.done| ==> 1 <= d.done[i] <= d.total
    requires |order| == if d.total >= |d.done| then d.total - |d.done| else 0
    ensures forall p :: 1 <= p <= d.total ==> p in d.done || p in order
  {
    forall x | x in order
      ensures d.start <= x <= d.total && x !in d.done
    {
      var i :| 0 <= i < |d.sent| && d.sent[i] == x;
    }
    if |d.done| > 0 {
      assert StrictlyIncreasingPositive(d.done);
      IncreasingPositiveBounds(d.done, |d.done| - 1);
      assert |d.done| <= d.done[|d.done| - 1] <= d.total;
    }
    CollectCoversAllParts(d.done, d.total, d.start, order);
  }

  /** Acknowledges the collected part `p` to the dispatcher, which then refills its window. */
  method Advance(d: Dispatcher, p: int, ghost order: seq<int>)
    requires Tracks(d, order)
    requires p in d.Abstract().inFlight
    modifies d, d.uploading
    ensures Tracks(d, order + [p])
  {
    ghost var window := d.Abstract();
    d.Ack(p);
    d.Fill();
    AckAsWrittenThenFill(d.done, d.total, d.w, d.start, window, p, order);
    DistinctSnoc(order, p);
  }

  /** Advance with the corrected acknowledgement, which keeps the dispatcher live. */
  method AdvanceCorrected(d: Dispatcher, p: int, ghost order: seq<int>)
    requires Tracks(d, order)
    requires p in d.Abstract().inFlight
    modifies d, d.uploading
    ensures Tracks(d, order + [p]) && Live(d)
  {
    ghost var window := d.Abstract();
    d.AckToNextMissing(p);
    d.Fill();
    AckThenFill(d.done, d.total, d.w, d.start, window, p, order);
    DistinctSnoc(order, p);
  }

  /** When the sorted checkpoint `done` fits a file of `total` parts, every part of the file is
      in it or in `order`. */
  ghost predicate CoversFrom(done: seq<int>, order: seq<int>, total: int) {
    total >= 0 && StrictlyIncreasing(done) && (forall i :: 0 <= i < |done| ==> 1 <= done[i] <= total) ==>
      forall p :: 1 <= p <= total ==> p in done || p in order
  }

  /** What the collector holds after collecting the parts in `order`: the receipts and the byte
      count of exactly those parts, each a part of the file that the checkpoint lacked and that uploaded. */
  ghost predicate Collected(env: Env, g: Geometry, done: seq<int>, order: seq<int>,
                            parts0: seq<CompletePart>, size0: int, parts: seq<CompletePart>, size: int)
  {
    (forall x :: x in order ==> 1 <= x <= g.totalParts && x !in done && env.putPart(x).Some?) &&
    parts == parts0 + PartsFor(env.putPart, order) &&
    size == size0 + BytesOf(g, order)
  }

  /** Collecting one more uploaded part keeps the collector's totals exact. */
  lemma CollectedStep(env: Env, g: Geometry, done: seq<int>, order: seq<int>,
                      parts0: seq<CompletePart>, size0: int, parts: seq<CompletePart>, size: int, p: int)
    requires Collected(env, g, done, order, parts0, size0, parts, size)
    requires 1 <= p <= g.totalParts && p !in done && env.putPart(p).Some?
    ensures Collected(env, g, done, order + [p], parts0, size0,
                      parts + [CompletePart(env.putPart(p).value, p)], size + PartLength(g, p))
  {
    PartsForSnoc(env.putPart, parts0, order, p);
    BytesOfSnoc(g, order, p);
  }

  /**
   * The dispatcher, the workers and the collector of one multipart upload. The collector waits
   * for `total - |done|` parts; each arriving part is one of those uploading (any of them),
   * and a successful one is checkpointed before it is acknowledged to the dispatcher. When no
   * part is uploading while the collector still waits, no result will ever arrive: the upload
   * hangs, which is the outcome Stalled. When a fill leaves more parts unacknowledged than the
   * pipeline of `threads` workers holds, the dispatcher blocks on a send inside the fill and never
   * reads another completion: the upload hangs too, which is the outcome Deadlocked (a file with no
   * checkpoint reaches it as soon as the window is wider than the pipeline). `corrected` selects
   * the corrected engine: the corrected acknowledgement, and completions that reach the dispatcher
   * while it fills; with it the upload never hangs.
   * `order` lists the parts checkpointed, in the order they arrived; `saved` is the checkpoint
   * stores after the last batch written (each batch overwrites the previous one).
   */
  method Collect(env: Env, key: StoreKey, uploadId: string, g: Geometry, w: int, done: seq<int>,
                 parts0: seq<CompletePart>, size0: int, stores: map<StoreKey, Checkpoint>, threads: nat,
                 corrected: bool)
    returns (err: Option<UploadError>, order: seq<int>, parts: seq<CompletePart>, size: int,
             saved: map<StoreKey, Checkpoint>)
    requires w >= 1
    requires forall i, j :: 0 <= i < j < |done| ==> done[i] <= done[j]
    ensures Distinct(order)
    ensures Collected(env, g, done, order, parts0, size0, parts, size)
    ensures saved == if order == [] then stores else stores[key := Written(uploadId, parts, size)]
    ensures err.None? ==> |order| == (if g.totalParts >= |done| then g.totalParts - |done| else 0)
    ensures err.Some? ==>
      (err.value.PartFailed? && 1 <= err.value.part <= g.totalParts && err.value.part !in done &&
       err.value.part !in order && env.putPart(err.value.part).None?) ||
      (err.value == BatchPutFailed && !env.batchPutOk(|order|)) ||
      (err.value == Stalled && |order| < g.totalParts - |done|) ||
      (err.value == Deadlocked && !corrected && |order| < g.totalParts - |done|)
    ensures corrected ==> err != Some(Stalled) && err != Some(Deadlocked)
    // without a checkpoint, a window wider than the pipeline hangs before any part is collected
    ensures !corrected && |done| == 0 && Capacity(threads) < w <= g.totalParts ==>
      err == Some(Deadlocked) && order == [] && saved == stores
    ensures err.None? ==> CoversFrom(done, order, g.totalParts)
  {
    var total := g.totalParts;
    var d := StartDispatcher(done, total, w);
    var numToUpload := total - |done|;
    parts := parts0;
    size := size0;
    order := [];
    ghost var overfull := !corrected && |done| == 0 && Capacity(threads) < w <= total;
    // each collected part's batch overwrites the store, so it holds the last batch written
    while |order| < numToUpload
      invariant Tracks(d, order) && d.done == done && d.total == total
      invariant corrected ==> Live(d)
      invariant overfull ==> order == [] && |d.sent| == w
      invariant numToUpload <= Missing(done, d.start, total)
      invariant |order| <= if numToUpload >= 0 then numToUpload else 0
      invariant Collected(env, g, done, order, parts0, size0, parts, size)
      decreases numToUpload - |order|
    {
      if !corrected && |d.sent| - |order| > Capacity(threads) {
        saved := if order == [] then stores else stores[key := Written(uploadId, parts, size)];
        return Some(Deadlocked), order, parts, size, saved;
      }
      if corrected {
        LiveHasUploading(d, order);
      }
      if d.uploading.Len() == 0 {
        saved := if order == [] then stores else stores[key := Written(uploadId, parts, size)];
        return Some(Stalled), order, parts, size, saved;
      }
      var p := PickUploading(d, order);
      var etag := env.putPart(p);
      if etag.None? {
        saved := if order == [] then stores else stores[key := Written(uploadId, parts, size)];
        return Some(PartFailed(p)), order, parts, size, saved;
      }
      if !env.batchPutOk(|order|) {
        saved := if order == [] then stores else stores[key := Written(uploadId, parts, size)];
        return Some(BatchPutFailed), order, parts, size, saved;
      }
      ghost var before := order;
      CollectedStep(env, g, done, order, parts0, size0, parts, size, p);
      parts := parts + [CompletePart(etag.value, p)];
      size := size + PartLength(g, p);
      order := order + [p];
      if corrected {
        AdvanceCorrected(d, p, before);
      } else {
        Advance(d, p, before);
      }
    }
    saved := if order == [] then stores else stores[key := Written(uploadId, parts, size)];
    err := None;
    if total >= 0 && StrictlyIncreasing(done) && (forall i :: 0 <= i < |done| ==> 1 <= done[i] <= total) {
      CollectedAll(d, order);
    }
  }

  // ---------------------------------------------------------------------------------------------
  // Resuming from the checkpoint, and what completion sends

  /** The checkpoint of store `k`; opening a store that does not exist creates an empty one. */
  function StoredCheckpoint(stores: map<StoreKey, Checkpoint>, k: StoreKey): Checkpoint {
    if k in stores then stores[k] else Empty
  }

  /** A stored upload id is stale when ListObjectParts fails or lists no parts for it. */
  predicate Stale(cp: Checkpoint, env: Env) {
    cp.uploadId.Some? && (env.listParts(cp.uploadId.value).None? || env.listParts(cp.uploadId.value).value == 0)
  }

  /** The checkpoint the upload resumes from: a stale upload id resets the store. */
  function InUse(cp: Checkpoint, env: Env): (r: Checkpoint)
    ensures Stale(cp, env) ==> r == Empty
    ensures !Stale(cp, env) ==> r == cp
  {
    if Stale(cp, env) then Empty else cp
  }

  /** No part number occurs twice. */
  ghost predicate NoRepeats(nums: seq<int>) {
    forall x :: multiset(nums)[x] <= 1
  }

  /** The checkpoint's part numbers fit the file: no repeats, each within `1..total`. */
  ghost predicate ConsistentParts(nums: seq<int>, total: int) {
    NoRepeats(nums) && forall x :: x in nums ==> 1 <= x <= total
  }

  /** Two equal entries at different positions make a value occur twice. */
  lemma TwoCopies(s: seq<int>, i: int, j: int)
    requires 0 <= i < j < |s|
    ensures s[i] == s[j] ==> multiset(s)[s[i]] >= 2
  {
    assert s == s[..j] + [s[j]] + s[j + 1..];
    assert s[i] in s[..j];
  }

  /** A sorted list without repeats is strictly increasing. */
  lemma SortedNoRepeatsIncreasing(s: seq<int>)
    requires forall i, j :: 0 <= i < j < |s| ==> s[i] <= s[j]
    requires NoRepeats(s)
    ensures StrictlyIncreasing(s)
  {
    forall i, j | 0 <= i < j < |s|
      ensures s[i] < s[j]
    {
      TwoCopies(s, i, j);
    }
  }

  /** Sorting a consistent list of part numbers gives a strictly increasing list within the file. */
  lemma SortedCheckpoint(nums: seq<int>, total: int)
    requires ConsistentParts(nums, total)
    ensures StrictlyIncreasing(SortInts(nums))
    ensures forall i :: 0 <= i < |SortInts(nums)| ==> 1 <= SortInts(nums)[i] <= total
  {
    var done := SortInts(nums);
    forall x
      ensures multiset(done)[x] <= 1
    {
      assert multiset(done)[x] == multiset(nums)[x];
    }
    SortedNoRepeatsIncreasing(done);
    forall i | 0 <= i < |done|
      ensures 1 <= done[i] <= total
    {
      assert done[i] in multiset(done);
      assert done[i] in nums;
    }
  }

  /** Sorting the parts keeps every part number. */
  lemma SortKeepsNumbers(parts: seq<CompletePart>, p: int)
    requires p in PartNumbers(parts)
    ensures p in PartNumbers(SortBy(parts, PartNumberOf))
  {
    var sorted := SortBy(parts, PartNumberOf);
    var i :| 0 <= i < |parts| && PartNumbers(parts)[i] == p;
    assert parts[i] in multiset(parts);
    assert parts[i] in multiset(sorted);
    var j :| 0 <= j < |sorted| && sorted[j] == parts[i];
    assert PartNumbers(sorted)[j] == p;
  }

  /** A part number held by the checkpoint is a number of the parts gathered. */
  lemma StoredNumberGathered(stored: seq<CompletePart>, collected: seq<CompletePart>, p: int)
    requires p in SortInts(PartNumbers(stored))
    ensures p in PartNumbers(stored + collected)
  {
    assert p in multiset(SortInts(PartNumbers(stored)));
    assert p in PartNumbers(stored);
    var i :| 0 <= i < |stored| && PartNumbers(stored)[i] == p;
    assert (stored + collected)[i] == stored[i];
    assert PartNumbers(stored + collected)[i] == p;
  }

  /** A part number collected now is a number of the parts gathered. */
  lemma CollectedNumberGathered(stored: seq<CompletePart>, putPart: int -> Option<string>, order: seq<int>, p: int)
    requires p in order
    ensures p in PartNumbers(stored + PartsFor(putPart, order))
  {
    var collected := PartsFor(putPart, order);
    var k :| 0 <= k < |order| && order[k] == p;
    PartsForAt(putPart, order, k);
    assert (stored + collected)[|stored| + k] == collected[k];
    assert PartNumbers(stored + collected)[|stored| + k] == p;
  }

  /** Every part number in the file, held by the checkpoint or collected, is among the parts sent to
      CompleteMultipartUpload. */
  lemma CompletedPartsCover(stored: seq<CompletePart>, putPart: int -> Option<string>, order: seq<int>, total: int)
    requires forall p :: 1 <= p <= total ==> p in SortInts(PartNumbers(stored)) || p in order
    ensures forall p :: 1 <= p <= total ==> p in PartNumbers(SortBy(stored + PartsFor(putPart, order), PartNumberOf))
  {
    forall p | 1 <= p <= total
      ensures p in PartNumbers(SortBy(stored + PartsFor(putPart, order), PartNumberOf))
    {
      if p in order {
        CollectedNumberGathered(stored, putPart, order, p);
      } else {
        StoredNumberGathered(stored, PartsFor(putPart, order), p);
      }
      SortKeepsNumbers(stored + PartsFor(putPart, order), p);
    }
  }

  /** Every part sent to CompleteMultipartUpload is a checkpointed part or the receipt of a part
      uploaded now. */
  lemma CompletedPartsOrigin(stored: seq<CompletePart>, putPart: int -> Option<string>, order: seq<int>)
    ensures forall c :: c in SortBy(stored + PartsFor(putPart, order), PartNumberOf) ==>
      c in stored || c == Receipt(putPart, c.partNumber)
  {
    var parts := stored + PartsFor(putPart, order);
    forall c | c in SortBy(parts, PartNumberOf)
      ensures c in stored || c == Receipt(putPart, c.partNumber)
    {
      assert c in multiset(SortBy(parts, PartNumberOf));
      assert c in parts;
      if c !in stored {
        var k :| 0 <= k < |PartsFor(putPart, order)| && PartsFor(putPart, order)[k] == c;
        PartsForAt(putPart, order, k);
      }
    }
  }

  /** The checkpoint of a file after the parts in `order` were collected from checkpoint `cp`: unchanged
      when none was, otherwise the last batch written, holding every part and byte so far. */
  function CheckpointAfter(cp: Checkpoint, uploadId: string, putPart: int -> Option<string>, g: Geometry,
                           order: seq<int>): Checkpoint
  {
    if order == [] then cp
    else Written(uploadId, StoredParts(cp) + PartsFor(putPart, order), StoredSize(cp) + BytesOf(g, order))
  }

  /** Every store other than `k` is as in `before`. */
  ghost predicate OthersUnchanged(now: map<StoreKey, Checkpoint>, before: map<StoreKey, Checkpoint>, k: StoreKey) {
    forall k' :: k' != k ==> (k' in now <==> k' in before) && (k' in now ==> now[k'] == before[k'])
  }

  /** Appending keeps what was there as a prefix. */
  lemma AppendKeepsPrefix<T>(a: seq<T>, x: T)
    ensures (a + [x])[..|a|] == a
  {
  }

  /** Writing or deleting store `k` leaves the others alone, and such changes compose. */
  lemma OthersUnchangedStep(before: map<StoreKey, Checkpoint>, mid: map<StoreKey, Checkpoint>, k: StoreKey, v: Checkpoint)
    requires OthersUnchanged(mid, before, k)
    ensures OthersUnchanged(mid[k := v], before, k)
    ensures OthersUnchanged(mid - {k}, before, k)
  {
  }

  /** The store the collector leaves behind is the checkpoint after the parts it collected. */
  lemma SavedCheckpoint(stores: map<StoreKey, Checkpoint>, k: StoreKey, uploadId: string,
                        putPart: int -> Option<string>, g: Geometry, order: seq<int>,
                        parts: seq<CompletePart>, size: int, saved: map<StoreKey, Checkpoint>)
    requires k in stores
    requires parts == StoredParts(stores[k]) + PartsFor(putPart, order)
    requires size == StoredSize(stores[k]) + BytesOf(g, order)
    requires saved == if order == [] then stores else stores[k := Written(uploadId, parts, size)]
    ensures saved == stores[k := CheckpointAfter(stores[k], uploadId, putPart, g, order)]
    ensures OthersUnchanged(saved, stores, k)
  {
    if order == [] {
      assert saved == stores[k := stores[k]];
    }
  }

  lemma OthersUnchangedTrans(a: map<StoreKey, Checkpoint>, b: map<StoreKey, Checkpoint>, c: map<StoreKey, Checkpoint>, k: StoreKey)
    requires OthersUnchanged(b, a, k) && OthersUnchanged(c, b, k)
    ensures OthersUnchanged(c, a, k)
  {
  }

  /**
   * What CompleteMultipartUpload receives: the bucket, key and upload id, and the parts sorted by
   * part number, each one checkpointed before (`stored`) or the receipt of a part uploaded now;
   * when the checkpoint's part numbers fit the file, every part number of the file is present.
   */
  ghost predicate CompletedAs(c: Completion, bucket: string, key: string, uploadId: string,
                              stored: seq<CompletePart>, putPart: int -> Option<string>, total: int)
  {
    c.bucket == bucket && c.key == key && c.uploadId == uploadId &&
    SortedBy(c.parts, PartNumberOf) &&
    (forall cp :: cp in c.parts ==> cp in stored || cp == Receipt(putPart, cp.partNumber)) &&
    (ConsistentParts(PartNumbers(stored), total) ==> forall p :: 1 <= p <= total ==> p in PartNumbers(c.parts))
  }

  /** The completion built from the checkpointed parts and the parts collected now is the one described. */
  lemma CompletionFacts(bucket: string, key: string, uploadId: string, stored: seq<CompletePart>,
                        putPart: int -> Option<string>, order: seq<int>, total: int)
    requires CoversFrom(SortInts(PartNumbers(stored)), order, total)
    ensures CompletedAs(Completion(bucket, key, uploadId, SortBy(stored + PartsFor(putPart, order), PartNumberOf)),
                        bucket, key, uploadId, stored, putPart, total)
  {
    CompletedPartsOrigin(stored, putPart, order);
    if ConsistentParts(PartNumbers(stored), total) && total >= 0 {
      SortedCheckpoint(PartNumbers(stored), total);
      CompletedPartsCover(stored, putPart, order, total);
    }
  }

  /**
   * The collecting half of uploadParts: the dispatcher, with the source's acknowledgement, and
   * the collector run over the parts the checkpoint of store `k` lacks, and each batch is written
   * to that store, so a collection that fails or hangs leaves the checkpoint of every part
   * collected. `saved` is the checkpoint stores afterwards. On success the checkpointed and
   * collected parts, sorted, make a completion that covers the file. With a part size of 0 the
   * part count is the smallest int64, so no part lies within the file and the dispatcher hands
   * none out (its window width, a division by the part size, is never evaluated): the collector
   * then waits for no part when the checkpoint is empty, and otherwise for a count that has
   * wrapped around to a huge one, for ever.
   */
  method CollectAll(env: Env, bucket: string, key: string, k: StoreKey, uploadId: string, configured: nat,
                    threads: nat, g: Geometry, stores: map<StoreKey, Checkpoint>)
    returns (err: Option<UploadError>, order: seq<int>, size: int, saved: map<StoreKey, Checkpoint>)
    requires k in stores
    // what minio's geometry guarantees: a window of at least one part, or no part at all
    requires g.partSize >= 0
    requires g.partSize > 0 ==> WindowParts(configured, g.partSize) >= 1
    requires g.partSize == 0 ==> g.totalParts < 0
    ensures OthersUnchanged(saved, stores, k)
    ensures saved == stores[k := CheckpointAfter(stores[k], uploadId, env.putPart, g, order)]
    ensures size == StoredSize(stores[k]) + BytesOf(g, order)
    ensures err.Some? ==>
      (err.value.PartFailed? && env.putPart(err.value.part).None?) || err.value == BatchPutFailed ||
      err.value == Stalled || err.value == Deadlocked
    ensures g.partSize > 0 && StoredParts(stores[k]) == [] && Capacity(threads) < WindowParts(configured, g.partSize) <= g.totalParts ==>
      err == Some(Deadlocked) && order == [] && saved == stores
    ensures g.partSize == 0 ==> order == [] && (err.None? <==> StoredParts(stores[k]) == [])
    ensures err.None? ==> CoversFrom(SortInts(PartNumbers(StoredParts(stores[k]))), order, g.totalParts)
  {
    var size0 := StoredSize(stores[k]);
    var parts0 := StoredParts(stores[k]);
    var done := SortInts(PartNumbers(parts0));
    if g.partSize == 0 {
      order, size, saved := [], size0, stores;
      SavedCheckpoint(stores, k, uploadId, env.putPart, g, order, parts0, size, saved);
      if |done| == 0 {
        return None, order, size, saved;
      }
      return Some(Stalled), order, size, saved;
    }
    var parts;
    err, order, parts, size, saved := Collect(env, k, uploadId, g, WindowParts(configured, g.partSize), done, parts0, size0, stores,
                                              threads, false);
    SavedCheckpoint(stores, k, uploadId, env.putPart, g, order, parts, size, saved);
  }

  /** Uploading a 1 GiB file without a checkpoint in 32 MiB parts with 4 workers hangs in the
      dispatcher's first fill, whatever the object store answers. */
  method NarrowPipelineDeadlocks(env: Env, bucket: string, key: string, k: StoreKey, uploadId: string,
                                 stores: map<StoreKey, Checkpoint>)
    returns (err: Option<UploadError>)
    requires k in stores && StoredParts(stores[k]) == []
    ensures err == Some(Deadlocked)
  {
    NarrowPipelineGeometry();
    var g := OptimalPartInfo(GiB, 32 * MiB).value;
    var order, size, saved;
    err, order, size, saved := CollectAll(env, bucket, key, k, uploadId, 32 * MiB, 4, g, stores);
  }

  // ---------------------------------------------------------------------------------------------
  // The manager

  class UploadManager {
    /** The part size setting: None when it does not parse. */
    const partSize: Option<nat>
    /** Whether a status monitor receives messages. */
    const hasMonitor: bool
    /** The number of upload workers per file (the parallel setting). */
    const threads: nat
    const fileInfos: map<string, FileInfo>
    /** The error recorded for each failed file. */
    var errs: map<string, UploadError>
    /** Messages sent to the status monitor, in order. */
    var messages: seq<Mon.Msg>
    /** The checkpoint stores on disk. */
    var stores: map<StoreKey, Checkpoint>
    /** Multipart uploads completed on the object store. */
    var completions: seq<Completion>
    /** Single-request uploads done on the object store. */
    var puts: seq<Put>

    constructor (partSize: Option<nat>, hasMonitor: bool, threads: nat, fileInfos: map<string, FileInfo>,
                 stores: map<StoreKey, Checkpoint>)
      ensures this.partSize == partSize && this.hasMonitor == hasMonitor && this.threads == threads
      ensures this.fileInfos == fileInfos
      ensures errs == map[] && messages == [] && this.stores == stores && completions == [] && puts == []
    {
      this.partSize := partSize;
      this.hasMonitor := hasMonitor;
      this.threads := threads;
      this.fileInfos := fileInfos;
      errs := map[];
      messages := [];
      this.stores := stores;
      completions := [];
      puts := [];
    }

    /** The messages a send adds: one when a monitor is attached, none otherwise. */
    function Sent(msg: Mon.Msg): seq<Mon.Msg>
      reads this
    {
      if hasMonitor then [msg] else []
    }

    method Send(msg: Mon.Msg)
      modifies this
      ensures messages == old(messages) + Sent(msg)
      ensures errs == old(errs) && stores == old(stores) && completions == old(completions) && puts == old(puts)
    {
      if hasMonitor {
        messages := messages + [msg];
      }
    }

    /** Marks the file failed on the monitor and records its error. */
    method AddErr(path: string, e: UploadError)
      modifies this
      ensures errs == old(errs)[path := e]
      ensures messages == old(messages) + Sent(StatusMsg(path, Mon.UploadFailed))
      ensures stores == old(stores) && completions == old(completions) && puts == old(puts)
    {
      Send(StatusMsg(path, Mon.UploadFailed));
      errs := errs[path := e];
    }

    /**
     * Opens the file's checkpoint store (creating an empty one) and settles the upload id: a stored
     * id is reused while the object store still lists parts for it; a stale one resets the store,
     * and a new multipart upload is started whenever no id is reused.
     */
    method Reconcile(env: Env, k: StoreKey) returns (err: Option<UploadError>, uploadId: string)
      modifies this
      ensures errs == old(errs) && messages == old(messages) && completions == old(completions) && puts == old(puts)
      ensures var cp := StoredCheckpoint(old(stores), k);
        stores == old(stores)[k := if Stale(cp, env) && env.resetOk then Empty else cp]
      ensures var choice := ReconcileUploadId(StoredCheckpoint(old(stores), k).uploadId, env.listParts, env.resetOk, env.newUpload);
        (err.None? <==> choice.Ok?) &&
        (err.None? ==> uploadId == choice.value.id && stores[k] == InUse(StoredCheckpoint(old(stores), k), env)) &&
        (err.Some? ==> err.value == ReconcileFailed(choice.error))
    {
      var cp := StoredCheckpoint(stores, k);
      stores := stores[k := cp];
      var choice := ReconcileUploadId(cp.uploadId, env.listParts, env.resetOk, env.newUpload);
      if Stale(cp, env) {
        if !env.resetOk {
          return Some(ReconcileFailed(ResetStoreFailed)), "";
        }
        stores := stores[k := Empty];
      }
      if choice.Err? {
        return Some(ReconcileFailed(choice.error)), "";
      }
      return None, choice.value.id;
    }

    /**
     * The resumable multipart upload of one file. `configured` is the part size setting. The
     * checkpoint store of the file is created if missing, a stale upload id resets it, parts it
     * holds are skipped, every part uploaded now is checkpointed, and the store is deleted once the
     * upload is completed. `order` (ghost) lists the parts collected, in the order they arrived.
     */
    method FMultipartPutObject(env: Env, bucket: string, key: string, filePath: string, fileSize: nat,
                               sha256: string, tags: map<string, string>, configured: nat, threads: nat)
      returns (err: Option<UploadError>, ghost order: seq<int>)
      modifies this
      ensures errs == old(errs) && puts == old(puts)
      ensures fileSize > MaxSinglePutObjectSize ==>
        err == Some(ObjectTooLarge) && stores == old(stores) && messages == old(messages) && completions == old(completions)
      ensures fileSize <= MaxSinglePutObjectSize && !env.mkdirOk ==> err == Some(MkdirFailed)
      ensures fileSize <= MaxSinglePutObjectSize && env.mkdirOk && !env.storeOpens ==> err == Some(StoreOpenFailed)
      // only the file's own checkpoint store changes
      ensures OthersUnchanged(stores, old(stores), StoreKeyFor(tags, sha256, filePath))
      ensures err.Some? && err != Some(DeleteFailed) ==> completions == old(completions)
      ensures err.Some? && err.value.PartFailed? ==> env.putPart(err.value.part).None?
      // CompleteMultipartUpload was called once, with the reconciled upload id
      ensures completions != old(completions) || err == Some(DeleteFailed) ==>
        var choice := ReconcileUploadId(StoredCheckpoint(old(stores), StoreKeyFor(tags, sha256, filePath)).uploadId,
                                        env.listParts, env.resetOk, env.newUpload);
        |completions| == |old(completions)| + 1 && completions[..|old(completions)|] == old(completions) &&
        choice.Ok? && OptimalPartInfo(fileSize, configured).Ok? &&
        CompletedAs(completions[|old(completions)|], bucket, key, choice.value.id,
                    StoredParts(InUse(StoredCheckpoint(old(stores), StoreKeyFor(tags, sha256, filePath)), env)),
                    env.putPart, OptimalPartInfo(fileSize, configured).value.totalParts)
      // the store is deleted exactly when the upload was completed without error
      ensures err.None? ==> (StoreKeyFor(tags, sha256, filePath) !in stores <==> completions != old(completions))
      // otherwise it keeps the checkpoint of every part collected, from which a later run resumes
      ensures order != [] ==>
        var k := StoreKeyFor(tags, sha256, filePath);
        var choice := ReconcileUploadId(StoredCheckpoint(old(stores), k).uploadId, env.listParts, env.resetOk, env.newUpload);
        choice.Ok? && OptimalPartInfo(fileSize, configured).Ok? &&
        (k in stores ==> stores[k] == CheckpointAfter(InUse(StoredCheckpoint(old(stores), k), env), choice.value.id,
                                                      env.putPart, OptimalPartInfo(fileSize, configured).value, order))
      // as written, a byte count that differs from the file size ends the upload with no error and no completion
      ensures err.None? && completions == old(completions) ==>
        OptimalPartInfo(fileSize, configured).Ok? &&
        StoredSize(InUse(StoredCheckpoint(old(stores), StoreKeyFor(tags, sha256, filePath)), env)) +
          BytesOf(OptimalPartInfo(fileSize, configured).value, order) != fileSize
      ensures err.None? ==>
        messages == old(messages) +
          Sent(Mon.UpdateStatusMsg(filePath, 0,
                 StoredSize(InUse(StoredCheckpoint(old(stores), StoreKeyFor(tags, sha256, filePath)), env)),
                 Mon.UploadInProgress)) +
          Sent(StatusMsg(filePath, Mon.MultipartCompletionInProgress))
      ensures err == Some(Stalled) || err == Some(Deadlocked) ==>
        messages == old(messages) +
          Sent(Mon.UpdateStatusMsg(filePath, 0,
                 StoredSize(InUse(StoredCheckpoint(old(stores), StoreKeyFor(tags, sha256, filePath)), env)),
                 Mon.UploadInProgress))
    {
      order := [];
      var k := StoreKeyFor(tags, sha256, filePath);
      if fileSize > MaxSinglePutObjectSize {
        return Some(ObjectTooLarge), order;
      }
      if !env.mkdirOk {
        return Some(MkdirFailed), order;
      }
      if !env.storeOpens {
        return Some(StoreOpenFailed), order;
      }
      ghost var before := stores;
      var uploadId;
      err, uploadId := Reconcile(env, k);
      OthersUnchangedStep(before, before, k, stores[k]);
      if err.Some? {
        return;
      }
      Send(Mon.UpdateStatusMsg(filePath, 0, StoredSize(stores[k]), Mon.UploadInProgress));
      ghost var reconciled := stores;
      err, order := UploadParts(env, bucket, key, filePath, fileSize, k, uploadId, configured, threads);
      OthersUnchangedTrans(before, reconciled, stores, k);
    }

    /**
     * The parts of a multipart upload whose upload id is settled: the geometry for the file size,
     * the parts the store `k` lacks uploaded and checkpointed, then completion. `order` (ghost)
     * lists the parts collected, in the order they arrived.
     */
    method UploadParts(env: Env, bucket: string, key: string, filePath: string, fileSize: nat,
                       k: StoreKey, uploadId: string, configured: nat, threads: nat)
      returns (err: Option<UploadError>, ghost order: seq<int>)
      requires fileSize <= MaxSinglePutObjectSize && k in stores
      modifies this
      ensures errs == old(errs) && puts == old(puts)
      ensures OthersUnchanged(stores, old(stores), k)
      ensures err.Some? && err != Some(DeleteFailed) ==> completions == old(completions)
      ensures err.Some? && err.value.PartFailed? ==> env.putPart(err.value.part).None?
      ensures completions != old(completions) || err == Some(DeleteFailed) ==>
        |completions| == |old(completions)| + 1 && completions[..|old(completions)|] == old(completions) &&
        OptimalPartInfo(fileSize, configured).Ok? &&
        CompletedAs(completions[|old(completions)|], bucket, key, uploadId, StoredParts(old(stores)[k]),
                    env.putPart, OptimalPartInfo(fileSize, configured).value.totalParts)
      // the store is deleted exactly when the upload was completed without error; otherwise it keeps
      // the checkpoint of every part collected
      ensures k !in stores <==> err.None? && completions != old(completions)
      ensures order != [] ==> OptimalPartInfo(fileSize, configured).Ok?
      ensures k in stores ==>
        stores[k] == if order == [] then old(stores)[k]
                     else CheckpointAfter(old(stores)[k], uploadId, env.putPart, OptimalPartInfo(fileSize, configured).value, order)
      // as written, a byte count that differs from the file size ends the upload with no error and no completion
      ensures err.None? && completions == old(completions) ==>
        OptimalPartInfo(fileSize, configured).Ok? &&
        StoredSize(old(stores)[k]) + BytesOf(OptimalPartInfo(fileSize, configured).value, order) != fileSize
      ensures err.None? ==> messages == old(messages) + Sent(StatusMsg(filePath, Mon.MultipartCompletionInProgress))
      ensures err.Some? && err != Some(CompleteFailed) && err != Some(DeleteFailed) ==> messages == old(messages)
    {
      order := [];
      var info := OptimalPartInfo(fileSize, configured);
      if info.Err? {
        return Some(PartInfoFailed(info.error)), order;
      }
      if !env.fileOpens {
        return Some(OpenFailed), order;
      }
      var g := info.value;
      if g.partSize != 0 {
        WindowHoldsAPart(fileSize, configured);
      }
      err, order := CollectAndComplete(env, bucket, key, filePath, fileSize, k, uploadId, configured, threads, g);
    }

    /**
     * The rest of `uploadParts` once the geometry `g` is chosen and the file is open: the missing
     * parts are uploaded and checkpointed, then the upload is completed.
     */
    method CollectAndComplete(env: Env, bucket: string, key: string, filePath: string, fileSize: nat,
                              k: StoreKey, uploadId: string, configured: nat, threads: nat, g: Geometry)
      returns (err: Option<UploadError>, ghost order: seq<int>)
      requires k in stores
      requires g.partSize >= 0
      requires g.partSize > 0 ==> WindowParts(configured, g.partSize) >= 1
      requires g.partSize == 0 ==> g.totalParts < 0
      modifies this
      ensures errs == old(errs) && puts == old(puts)
      ensures OthersUnchanged(stores, old(stores), k)
      ensures err.Some? && err != Some(DeleteFailed) ==> completions == old(completions)
      ensures err.Some? && err.value.PartFailed? ==> env.putPart(err.value.part).None?
      ensures completions != old(completions) || err == Some(DeleteFailed) ==>
        |completions| == |old(completions)| + 1 && completions[..|old(completions)|] == old(completions) &&
        CompletedAs(completions[|old(completions)|], bucket, key, uploadId, StoredParts(old(stores)[k]),
                    env.putPart, g.totalParts)
      ensures k !in stores <==> err.None? && completions != old(completions)
      ensures k in stores ==> stores[k] == CheckpointAfter(old(stores)[k], uploadId, env.putPart, g, order)
      ensures err.None? && completions == old(completions) ==> StoredSize(old(stores)[k]) + BytesOf(g, order) != fileSize
      ensures err.None? ==> messages == old(messages) + Sent(StatusMsg(filePath, Mon.MultipartCompletionInProgress))
      ensures err.Some? && err != Some(CompleteFailed) && err != Some(DeleteFailed) ==> messages == old(messages)
    {
      var stored := StoredParts(stores[k]);
      var collectedOrder, size, saved;
      err, collectedOrder, size, saved := CollectAll(env, bucket, key, k, uploadId, configured, threads, g, stores);
      stores := saved;
      order := collectedOrder;
      if err.Some? {
        return;
      }
      ghost var collected := stores;
      err := Complete(env, bucket, key, filePath, fileSize, k, uploadId, stored, collectedOrder, g.totalParts, size);
      OthersUnchangedTrans(old(stores), collected, stores, k);
    }

    /**
     * Completion as written: the monitor is told that completion is under way; a byte count that
     * differs from the file size then ends the upload with the function's `err` wrapped, and that
     * error is nil on every path reaching the check, so the upload ends without completing and
     * without an error. Otherwise the parts are sorted by part number for CompleteMultipartUpload,
     * and the checkpoint store is deleted only after that succeeds.
     */
    method Complete(env: Env, bucket: string, key: string, filePath: string, fileSize: nat, k: StoreKey,
                    uploadId: string, stored: seq<CompletePart>, order: seq<int>, total: int, size: int)
      returns (err: Option<UploadError>)
      requires CoversFrom(SortInts(PartNumbers(stored)), order, total)
      modifies this
      ensures errs == old(errs) && puts == old(puts)
      ensures messages == old(messages) + Sent(StatusMsg(filePath, Mon.MultipartCompletionInProgress))
      ensures size != fileSize ==> err.None? && completions == old(completions) && stores == old(stores)
      ensures size == fileSize ==>
        err == (if !env.completeOk then Some(CompleteFailed) else if !env.deleteOk then Some(DeleteFailed) else None) &&
        stores == (if err.None? then old(stores) - {k} else old(stores))
      ensures if size == fileSize && env.completeOk then
          |completions| == |old(completions)| + 1 && completions[..|old(completions)|] == old(completions) &&
          CompletedAs(completions[|old(completions)|], bucket, key, uploadId, stored, env.putPart, total) &&
          multiset(completions[|old(completions)|].parts) == multiset(stored + PartsFor(env.putPart, order))
        else completions == old(completions)
    {
      Send(StatusMsg(filePath, Mon.MultipartCompletionInProgress));
      var verdict := SizeCheckAsWritten(size, fileSize, None);
      if verdict.Stop? {
        SizeMismatchReportsSuccess(size, fileSize);
        return verdict.result;
      }
      var sorted := SortBy(stored + PartsFor(env.putPart, order), PartNumberOf);
      CompletionFacts(bucket, key, uploadId, stored, env.putPart, order, total);
      err := CompleteSorted(env, Completion(bucket, key, uploadId, sorted), k);
      if env.completeOk {
        AppendKeepsPrefix(old(completions), Completion(bucket, key, uploadId, sorted));
      }
    }

    /** CompleteMultipartUpload with the sorted parts; the file's store is deleted only after it succeeds. */
    method CompleteSorted(env: Env, c: Completion, k: StoreKey) returns (err: Option<UploadError>)
      modifies this
      ensures errs == old(errs) && puts == old(puts) && messages == old(messages)
      ensures completions == if env.completeOk then old(completions) + [c] else old(completions)
      ensures err == if !env.completeOk then Some(CompleteFailed) else if !env.deleteOk then Some(DeleteFailed) else None
      ensures stores == if err.None? then old(stores) - {k} else old(stores)
    {
      if !env.completeOk {
        return Some(CompleteFailed);
      }
      completions := completions + [c];
      if !env.deleteOk {
        return Some(DeleteFailed);
      }
      stores := stores - {k};
      err := None;
    }

    /**
     * Uploads one file: a file without gathered info fails at once; otherwise, once the part size
     * setting parses, a file larger than the part size goes through the multipart upload and any
     * other file through one PUT. The outcome is recorded: an error for the file, or its status
     * set to completed. `recorded` is the outcome.
     */
    method FPutObject(env: Env, absPath: string, bucket: string, key: string, tags: map<string, string>)
      returns (recorded: Option<UploadError>)
      modifies this
      // a stalled or deadlocked upload never returns in the source: nothing is recorded for the file
      ensures recorded.Some? && !Hangs(recorded.value) ==> errs == old(errs)[absPath := recorded.value]
      ensures recorded.None? || Hangs(recorded.value) ==> errs == old(errs)
      ensures absPath !in fileInfos ==>
        recorded == Some(FileInfoNotFound) && messages == old(messages) + Sent(StatusMsg(absPath, Mon.UploadFailed)) &&
        stores == old(stores) && completions == old(completions) && puts == old(puts)
      ensures absPath in fileInfos && partSize.None? ==>
        recorded == Some(PartSizeUnparsable) && messages == old(messages) + Sent(StatusMsg(absPath, Mon.UploadFailed)) &&
        stores == old(stores) && completions == old(completions) && puts == old(puts)
      // a file no larger than the part size: one PUT
      ensures absPath in fileInfos && partSize.Some? && fileInfos[absPath].size <= partSize.value ==>
        stores == old(stores) && completions == old(completions) &&
        recorded == (if env.putOk then None else Some(PutFailed)) &&
        puts == (if env.putOk then old(puts) + [Put(bucket, key, absPath, tags)] else old(puts)) &&
        messages == old(messages) + Sent(StatusMsg(absPath, Mon.UploadInProgress)) +
          Sent(StatusMsg(absPath, if env.putOk then Mon.UploadCompleted else Mon.UploadFailed))
      // a larger file: the multipart upload; with no error either it was completed and its checkpoint
      // store deleted, or (as written) its byte count differed from the file size and it was neither
      // completed nor its store deleted; either way the file is reported completed
      ensures absPath in fileInfos && partSize.Some? && fileInfos[absPath].size > partSize.value ==>
        puts == old(puts) &&
        OthersUnchanged(stores, old(stores), StoreKeyFor(tags, fileInfos[absPath].sha256, absPath)) &&
        (recorded.None? ==>
           (StoreKeyFor(tags, fileInfos[absPath].sha256, absPath) !in stores <==> completions != old(completions)) &&
           (completions != old(completions) ==>
              |completions| == |old(completions)| + 1 && completions[..|old(completions)|] == old(completions) &&
              completions[|old(completions)|].bucket == bucket && completions[|old(completions)|].key == key) &&
           (hasMonitor ==> |messages| > 0 && messages[|messages| - 1] == StatusMsg(absPath, Mon.UploadCompleted)))
    {
      if absPath !in fileInfos {
        AddErr(absPath, FileInfoNotFound);
        return Some(FileInfoNotFound);
      }
      var info := fileInfos[absPath];
      if partSize.None? {
        AddErr(absPath, PartSizeUnparsable);
        return Some(PartSizeUnparsable);
      }
      var size := partSize.value;
      if info.size > size {
        ghost var order;
        recorded, order := FMultipartPutObject(env, bucket, key, absPath, info.size, info.sha256, tags, size, threads);
      } else {
        Send(StatusMsg(absPath, Mon.UploadInProgress));
        if env.putOk {
          puts := puts + [Put(bucket, key, absPath, tags)];
          recorded := None;
        } else {
          recorded := Some(PutFailed);
        }
      }
      if recorded.Some? && Hangs(recorded.value) {
        return;
      }
      if recorded.Some? {
        AddErr(absPath, recorded.value);
      } else {
        Send(StatusMsg(absPath, Mon.UploadCompleted));
      }
    }

    /**
     * Uploads a file to a pre-signed URL: the URL and its tagging query must parse, and its path must
     * lie under "/default/"; the file then goes to bucket "default" under the rest of the path,
     * tagged with the first value of each tag.
     */
    method UploadFileThroughUrl(env: Env, file: string, url: Option<UploadUrl>) returns (err: Option<UploadError>)
      modifies this
      ensures url.None? ==> err == Some(ParseUrlFailed)
      ensures url.Some? && url.value.tagging.None? ==> err == Some(ParseTagsFailed)
      ensures url.Some? && url.value.tagging.Some? && !StartsWith(url.value.path, DefaultBucketPrefix) ==>
        err == Some(InvalidUploadUrl)
      ensures err.Some? ==>
        errs == old(errs) && messages == old(messages) && stores == old(stores) &&
        completions == old(completions) && puts == old(puts)
      ensures err.None? ==> url.Some? && url.value.tagging.Some? && StartsWith(url.value.path, DefaultBucketPrefix)
      ensures err.None? && file in fileInfos && partSize.Some? && fileInfos[file].size <= partSize.value && env.putOk ==>
        puts == old(puts) + [Put("default", TrimPrefix(url.value.path, DefaultBucketPrefix), file,
                                 FirstValues(url.value.tagging.value))]
    {
      if url.None? {
        return Some(ParseUrlFailed);
      }
      if url.value.tagging.None? {
        return Some(ParseTagsFailed);
      }
      var tags := FirstValues(url.value.tagging.value);
      var objectKey := UploadKey(url.value.path);
      if objectKey.Err? {
        return Some(objectKey.error);
      }
      var _ := FPutObject(env, file, "default", objectKey.value, tags);
      return None;
    }
  }
}
