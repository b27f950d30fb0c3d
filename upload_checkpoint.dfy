/**
 * The checkpoint of a resumable multipart upload: a small key-value store per
 * (record, file hash, file path) holding the upload id, the parts uploaded so
 * far and the number of bytes they hold; how a multipart upload reads it back,
 * and how it decides whether a stored upload id is still usable.
 */
module UploadCheckpoint {
  import opened Wrappers
  import opened Strings

  /** The store a file's checkpoint lives in: named after the record id tag, the file's
      SHA-256 and its path (the part size is not part of the name). */
  datatype StoreKey = StoreKey(recordId: string, sha256: string, path: string)

  /** What CompleteMultipartUpload needs of one uploaded part (the checksums the server
      returns travel with the ETag and are not modelled separately). */
  datatype CompletePart = CompletePart(etag: string, partNumber: int)

  /** The stored parts list: either it decodes to a list of parts, or it does not. */
  datatype PartsValue = Encoded(parts: seq<CompletePart>) | Undecodable

  /** The three entries of a checkpoint store; `None` is a key with no value. */
  datatype Checkpoint = Checkpoint(uploadId: Option<string>, parts: Option<PartsValue>, uploadedSize: Option<string>)

  /** A store just created, or just reset. */
  const Empty: Checkpoint := Checkpoint(None, None, None)

  /** The batch the collector writes after each part: the upload id, the parts so far
      and the decimal byte count. */
  function Written(uploadId: string, parts: seq<CompletePart>, uploadedSize: int): Checkpoint {
    Checkpoint(Some(uploadId), Some(Encoded(parts)), Some(FormatInt(uploadedSize)))
  }

  /** The stored byte count; a missing or unparsable value counts as 0. */
  function StoredSize(cp: Checkpoint): int {
    match cp.uploadedSize
    case None => 0
    case Some(text) => ParseInt(text).GetOr(0)
  }

  /** The stored parts; a missing or undecodable value counts as no parts. */
  function StoredParts(cp: Checkpoint): seq<CompletePart> {
    match cp.parts
    case Some(Encoded(ps)) => ps
    case _ => []
  }

  /** The part numbers of `parts`, in the same order. */
  function PartNumbers(parts: seq<CompletePart>): (r: seq<int>)
    ensures |r| == |parts| && forall i :: 0 <= i < |parts| ==> r[i] == parts[i].partNumber
  {
    if parts == [] then [] else [parts[0].partNumber] + PartNumbers(parts[1..])
  }

  function PartNumberOf(p: CompletePart): int {
    p.partNumber
  }

  /** A checkpoint written by the collector reads back as what was written, as long as the
      byte count fits in 64 bits. */
  lemma CheckpointReadBack(uploadId: string, parts: seq<CompletePart>, uploadedSize: int)
    requires MinInt64 <= uploadedSize <= MaxInt64
    ensures Written(uploadId, parts, uploadedSize).uploadId == Some(uploadId)
    ensures StoredParts(Written(uploadId, parts, uploadedSize)) == parts
    ensures StoredSize(Written(uploadId, parts, uploadedSize)) == uploadedSize
  {
    ParseFormatInt(uploadedSize);
  }

  /** A stored size that is present and parses is used as is; anything else counts as 0. */
  lemma StoredSizeCases(cp: Checkpoint)
    ensures cp.uploadedSize.Some? && ParseInt(cp.uploadedSize.value).Some? ==>
      StoredSize(cp) == ParseInt(cp.uploadedSize.value).value
    ensures cp.uploadedSize.None? || ParseInt(cp.uploadedSize.value).None? ==> StoredSize(cp) == 0
    ensures MinInt64 <= StoredSize(cp) <= MaxInt64
  {
  }

  /** How the upload id to use was obtained. */
  datatype UploadIdChoice =
    | Reuse(id: string)                   // the stored id still has parts on the server
    | Fresh(id: string, resetStore: bool) // a new multipart upload, after resetting the store if it held a stale id

  datatype ReconcileError = ResetStoreFailed | NewUploadFailed

  /**
   * The upload-id decision. `listParts(id)` is what ListObjectParts reports for an id (the number
   * of parts, or None on error); `resetOk` is whether resetting the store succeeds; `newUpload` is
   * the id NewMultipartUpload returns (None on error).
   */
  function ReconcileUploadId(stored: Option<string>, listParts: string -> Option<nat>,
                             resetOk: bool, newUpload: Option<string>): (r: Result<UploadIdChoice, ReconcileError>)
    ensures r.Ok? && r.value.Reuse? <==>
      stored.Some? && stored.value != "" && listParts(stored.value).Some? && listParts(stored.value).value > 0
    ensures r.Ok? && r.value.Reuse? ==> r.value.id == stored.value
    ensures r.Ok? && r.value.Fresh? ==> newUpload == Some(r.value.id)
    ensures r.Ok? && r.value.Fresh? ==>
      (r.value.resetStore <==> stored.Some? && (listParts(stored.value).None? || listParts(stored.value).value == 0))
    ensures r == Err(ResetStoreFailed) <==>
      stored.Some? && (listParts(stored.value).None? || listParts(stored.value).value == 0) && !resetOk
    ensures r == Err(NewUploadFailed) ==> newUpload.None?
  {
    match stored
    case None =>
      (match newUpload
       case None => Err(NewUploadFailed)
       case Some(id) => Ok(Fresh(id, false)))
    case Some(id) =>
      var listed := listParts(id);
      if listed.None? || listed.value == 0 then
        if !resetOk then Err(ResetStoreFailed)
        else
          (match newUpload
           case None => Err(NewUploadFailed)
           case Some(newId) => Ok(Fresh(newId, true)))
      else if id != "" then Ok(Reuse(id))
      else
        (match newUpload
         case None => Err(NewUploadFailed)
         case Some(newId) => Ok(Fresh(newId, false)))
  }
}
