/**
 * How a multipart upload cuts a file into parts: the size limits, the part
 * geometry (minio's OptimalPartInfo for the part size the uploader configures),
 * the byte range each part reads and the dispatcher's window width.
 */
module UploadParts {
  import opened Wrappers

  const MiB: int := 1024 * 1024
  const GiB: int := 1024 * MiB

  /** Largest file the uploader accepts. */
  const MaxSinglePutObjectSize: int := 500 * GiB
  /** Bytes the dispatcher keeps in flight (at least one part). */
  const DefaultWindowSize: int := GiB

  // Limits of minio-go's multipart uploads.
  const AbsMinPartSize: int := 5 * MiB
  const MinPartSize: int := 16 * MiB
  const MaxPartSize: int := 5 * GiB
  const MaxPartsCount: int := 10000
  const MaxMultipartPutObjectSize: int := 5 * 1024 * GiB

  datatype Geometry = Geometry(totalParts: int, partSize: int, lastPartSize: int)

  /**
   * Go's int(x) of an infinite or NaN float64 on amd64: the "integer indefinite" value, the
   * smallest int64 (the language leaves the result to the implementation).
   */
  const IntOfInfinity: int := -0x8000_0000_0000_0000

  datatype PartInfoError =
    | EntityTooLarge
    | PartSizeTimesCountTooSmall
    | PartSizeBelowMinimum
    | PartSizeAboveMaximum

  /** `total` parts of `partSize` bytes, the last one holding the remainder, cover exactly `fileSize` bytes. */
  predicate Tiles(fileSize: int, g: Geometry) {
    g.partSize > 0 && g.totalParts >= 1 &&
    0 < g.lastPartSize <= g.partSize &&
    fileSize == (g.totalParts - 1) * g.partSize + g.lastPartSize
  }

  function CeilDiv(a: nat, b: int): (q: nat)
    requires b > 0
    ensures (q - 1) * b < a <= q * b || (a == 0 && q == 0)
  {
    (a + b - 1) / b
  }

  /** Cutting `a > 0` bytes into ceil(a / b) parts of `b` bytes leaves a last part of 1..b bytes. */
  lemma CeilTiles(a: nat, b: int)
    requires a > 0 && b > 0
    ensures CeilDiv(a, b) >= 1
    ensures Tiles(a, Geometry(CeilDiv(a, b), b, a - (CeilDiv(a, b) - 1) * b))
  {
    var q := CeilDiv(a, b);
    assert q * b == (q - 1) * b + b;
  }

  /**
   * The part count, part size and last-part size for an object of `objectSize` bytes when the
   * caller asks for parts of `configured` bytes (0: let the library choose). When the library
   * chooses for an object under 10000 bytes, the part size rounds down to 0 and the part count
   * is ceil(objectSize / 0.0), an infinity (NaN for an empty object), converted to int.
   */
  function OptimalPartInfo(objectSize: nat, configured: nat): (r: Result<Geometry, PartInfoError>)
    ensures r.Ok? && r.value.partSize != 0 ==> Tiles(objectSize, r.value)
    ensures r.Ok? && configured > 0 ==>
      r.value.partSize == configured &&
      AbsMinPartSize <= configured <= MaxPartSize &&
      configured <= objectSize <= configured * MaxPartsCount
    ensures configured > 0 && (configured > objectSize || configured < AbsMinPartSize || configured > MaxPartSize) ==> r.Err?
    ensures configured == 0 ==> (r.Ok? <==> objectSize <= MaxMultipartPutObjectSize)
    ensures r.Ok? && r.value.partSize == 0 <==> configured == 0 && objectSize < MaxPartsCount
    ensures r.Ok? && r.value.partSize == 0 ==> r.value == Geometry(IntOfInfinity, 0, objectSize)
  {
    if objectSize > MaxMultipartPutObjectSize then Err(EntityTooLarge)
    else if configured > 0 then
      if configured > objectSize then Err(EntityTooLarge)
      else if objectSize > configured * MaxPartsCount then Err(PartSizeTimesCountTooSmall)
      else if configured < AbsMinPartSize then Err(PartSizeBelowMinimum)
      else if configured > MaxPartSize then Err(PartSizeAboveMaximum)
      else
        var total := CeilDiv(objectSize, configured);
        CeilTiles(objectSize, configured);
        Ok(Geometry(total, configured, objectSize - (total - 1) * configured))
    else
      var ps := CeilDiv(objectSize / MaxPartsCount, MinPartSize) * MinPartSize;
      if ps == 0 then
        assert objectSize / MaxPartsCount == 0;
        Ok(Geometry(IntOfInfinity, 0, objectSize))
      else
        var total := CeilDiv(objectSize, ps);
        assert CeilDiv(0, MinPartSize) == 0;
        assert objectSize > 0;
        CeilTiles(objectSize, ps);
        Ok(Geometry(total, ps, objectSize - (total - 1) * ps))
  }

  /** The number of parts the dispatcher keeps in its window: the window is 1 GiB, or one configured part if larger. */
  function WindowParts(configured: nat, partSize: int): int
    requires partSize > 0
  {
    (if DefaultWindowSize < configured then configured else DefaultWindowSize) / partSize
  }

  lemma DivAtLeastOne(x: int, y: int)
    requires 0 < y <= x
    ensures x / y >= 1
  {
  }

  /** Every accepted file gets a window of at least one part. */
  lemma WindowHoldsAPart(fileSize: nat, configured: nat)
    requires fileSize <= MaxSinglePutObjectSize
    requires OptimalPartInfo(fileSize, configured).Ok? && OptimalPartInfo(fileSize, configured).value.partSize != 0
    ensures WindowParts(configured, OptimalPartInfo(fileSize, configured).value.partSize) >= 1
  {
    var g := OptimalPartInfo(fileSize, configured).value;
    if configured == 0 {
      var q := fileSize / MaxPartsCount;
      assert q <= 54 * MiB;
      var k := CeilDiv(q, MinPartSize);
      assert k <= 4;
      assert g.partSize <= 4 * MinPartSize;
      DivAtLeastOne(DefaultWindowSize, g.partSize);
    } else if DefaultWindowSize < configured {
      DivAtLeastOne(configured, g.partSize);
    } else {
      DivAtLeastOne(DefaultWindowSize, g.partSize);
    }
  }

  /** First byte of part `p` (parts are numbered from 1). */
  function PartOffset(g: Geometry, p: int): int {
    (p - 1) * g.partSize
  }

  /** Number of bytes of part `p`: the last part holds the remainder. */
  function PartLength(g: Geometry, p: int): int {
    if p == g.totalParts then g.lastPartSize else g.partSize
  }

  /** Multiplying by a non-negative size keeps the order of two non-negative factors. */
  lemma {:induction false} MulMonotone(a: int, b: int, c: int)
    requires 0 <= a <= b && 0 <= c
    ensures 0 <= a * c <= b * c
    decreases b
  {
    if b > a {
      MulMonotone(a, b - 1, c);
      assert b * c == (b - 1) * c + c;
    } else if a > 0 {
      MulMonotone(a - 1, a - 1, c);
      assert a * c == (a - 1) * c + c;
    }
  }

  /** Products of the part number and the part size grow with the part number. */
  lemma OffsetsGrow(p: int, total: int, size: int)
    requires 1 <= p <= total && size > 0
    ensures 0 <= (p - 1) * size
    ensures (p - 1) * size + size == p * size
    ensures p < total ==> p * size <= (total - 1) * size
  {
    MulMonotone(p - 1, p - 1, size);
    if p < total {
      MulMonotone(p, total - 1, size);
    }
  }

  /** Each part reads a non-empty range inside the file, and consecutive parts are adjacent. */
  lemma PartRanges(fileSize: int, g: Geometry, p: int)
    requires Tiles(fileSize, g) && 1 <= p <= g.totalParts
    ensures 0 <= PartOffset(g, p) && 0 < PartLength(g, p)
    ensures PartOffset(g, p) + PartLength(g, p) <= fileSize
    ensures p < g.totalParts ==> PartOffset(g, p) + PartLength(g, p) == PartOffset(g, p + 1)
    ensures p == g.totalParts ==> PartOffset(g, p) + PartLength(g, p) == fileSize
  {
    OffsetsGrow(p, g.totalParts, g.partSize);
  }

  /** Total length of parts 1..k. */
  function PrefixLength(g: Geometry, k: int): int
    decreases k
  {
    if k <= 0 then 0 else PrefixLength(g, k - 1) + PartLength(g, k)
  }

  /** Parts 1..k cover exactly the bytes before the start of part k + 1, so all parts cover the file. */
  lemma {:induction false} PrefixCoversFile(fileSize: int, g: Geometry, k: int)
    requires Tiles(fileSize, g) && 0 <= k <= g.totalParts
    ensures k < g.totalParts ==> PrefixLength(g, k) == PartOffset(g, k + 1)
    ensures k == g.totalParts ==> PrefixLength(g, k) == fileSize
    decreases k
  {
    if k > 0 {
      PrefixCoversFile(fileSize, g, k - 1);
      PartRanges(fileSize, g, k);
    }
  }
}
