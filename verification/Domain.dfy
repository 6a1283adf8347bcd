/** Values shared by the gateway's components: bodies, digests and the records a
    finished request hands to the capture store. */
module Domain {

  datatype Option<+T> = None | Some(value: T)

  datatype Result<+T, +E> = Ok(value: T) | Err(error: E)

  newtype Byte = x: int | 0 <= x < 256

  type Body = seq<Byte>

  /** SHA-256 is left uninterpreted: a digest only remembers what was hashed. */
  datatype Digest = Sha256(preimage: Body)

  type RequestId = string

  const I64_MAX: int := 0x7FFF_FFFF_FFFF_FFFF
  const I64_MIN: int := -0x8000_0000_0000_0000

  function Min(a: int, b: int): int {
    if a <= b then a else b
  }

  function Max(a: int, b: int): int {
    if a <= b then b else a
  }

  function One(b: bool): nat {
    if b then 1 else 0
  }

  predicate Distinct<T(==)>(s: seq<T>) {
    forall i, j :: 0 <= i < j < |s| ==> s[i] != s[j]
  }

  predicate Increasing(s: seq<nat>) {
    forall i, j :: 0 <= i < j < |s| ==> s[i] < s[j]
  }

  /** The first `limit` bytes of `bytes`, or all of them. */
  function Take<T>(bytes: seq<T>, limit: nat): seq<T> {
    if |bytes| <= limit then bytes else bytes[..limit]
  }

  function SaturatingAdd(a: int, b: int): int {
    Max(I64_MIN, Min(I64_MAX, a + b))
  }

  function SaturatingSub(a: int, b: int): int {
    SaturatingAdd(a, -b)
  }

  /** Exact within 64 bits, and otherwise the nearest bound. */
  lemma SaturatingExact(a: int, b: int)
    ensures -0x8000_0000_0000_0000 <= a + b <= 0x7FFF_FFFF_FFFF_FFFF ==> SaturatingAdd(a, b) == a + b
    ensures a + b > 0x7FFF_FFFF_FFFF_FFFF ==> SaturatingAdd(a, b) == 0x7FFF_FFFF_FFFF_FFFF
    ensures a + b < -0x8000_0000_0000_0000 ==> SaturatingAdd(a, b) == -0x8000_0000_0000_0000
    ensures SaturatingSub(a, b) == SaturatingAdd(a, 0 - b)
  {
  }

  /** A stored or forwarded header pair. */
  datatype Header = Header(name: string, value: string)

  /** The metadata row of one request. */
  datatype RequestInsert = RequestInsert(
    requestId: RequestId,
    routeId: Option<string>,
    verb: string,
    path: string,
    redactedQuery: Option<string>,
    status: int,
    upstream: Option<string>,
    isError: bool,
    isSlow: bool,
    captureDropped: bool,
    createdAt: int)

  /** The captured bodies of one request. */
  datatype CaptureInsert = CaptureInsert(
    requestBody: Option<Body>,
    responseBody: Option<Body>,
    requestTruncated: bool,
    responseTruncated: bool,
    requestSha: Option<Digest>,
    responseSha: Option<Digest>)

  /** A plugin decision carries its own request id. */
  datatype DecisionInsert = DecisionInsert(
    requestId: RequestId,
    pluginId: string,
    action: string,
    denyStatus: Option<int>)

  /** What a finalizer offers to the capture writer. */
  datatype CaptureWrite = CaptureWrite(
    record: RequestInsert,
    requestHeaders: seq<Header>,
    responseHeaders: seq<Header>,
    capture: Option<CaptureInsert>,
    decisions: seq<DecisionInsert>)
}
