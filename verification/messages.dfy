/**
  The messages exchanged between the caller, the memoizer, the classifier
  and the cache.
 */
module Messages {
  import opened GoTypes
  import opened MemErrors

  /** A classification request: the image bytes and the caller's request id. */
  datatype MnistReq = MnistReq(val: Payload, id: Int64)

  /** A classification answer; `err` is nil on success. */
  datatype MnistResp = MnistResp(val: Int64, id: Int64, err: Option<ErrorValue>)

  /** A cache request: a lookup when `write` is false, a store when it is true. */
  datatype CacheReq = CacheReq(write: bool, key: Uint64, val: Int64, id: Int64)

  /** A lookup answer; `present` is Go's `Exists` field. */
  datatype CacheResp = CacheResp(present: bool, val: Int64, id: Int64)

  /** What a receive yields on a closed Go channel: the zero value of the element type. */
  const ZeroMnistResp := MnistResp(0, 0, None)
  const ZeroCacheResp := CacheResp(false, 0, 0)
}
