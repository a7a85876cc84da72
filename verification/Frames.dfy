/** Response frames: a batch with its metadata, and what a reader takes a frame to be. */
module Frames {
  import opened Bytes

  type Metadata = map<string, string>

  const STATE_KEY := "vgi_rpc.stream_state#b64"
  const CALL_STATE_KEY := "vgi_rpc.call_state#b64"
  const LOCATION_KEY := "vgi_rpc.location"
  const LOCATION_SHA256_KEY := "vgi_rpc.location.sha256"
  const LOCATION_FETCH_MS_KEY := "vgi_rpc.location.fetch_ms"
  const LOCATION_SOURCE_KEY := "vgi_rpc.location.source"
  const LOG_LEVEL_KEY := "vgi_rpc.log_level"

  /** A record batch, by its row count and an identity of its contents. */
  datatype Batch = Batch(rows: nat, content: int)

  datatype Frame = Frame(batch: Batch, md: Metadata)

  datatype RpcError =
    | Remote(md: Metadata)                // an error envelope sent by the server
    | UnresolvedPointer(location: string)
    | FetchFailed(code: int)
    | ReadFailed(code: int)               // the stream could not be read further
    | RedirectLoop | SecondPayloadBatch | NoPayloadBatch
    | MultipleBatches | Truncated | AfterClose | Transport | Poisoned | NoToken

  datatype Kind = Data | Pointer | Log(md: Metadata) | Exception(error: RpcError)

  /** A pointer before anything else; then rows mean data; only a zero-row frame with a level is a log or an error. */
  function Classify(f: Frame): Kind {
    if LOCATION_KEY in f.md then Pointer
    else if f.batch.rows != 0 then Data
    else if LOG_LEVEL_KEY !in f.md then Data
    else if f.md[LOG_LEVEL_KEY] == "EXCEPTION" then Exception(Remote(f.md))
    else Log(f.md)
  }

  /** A stream of frames: those that could be read, then a clean end or a failure to read on. */
  datatype Stream = Stream(frames: seq<Frame>, broken: Option<RpcError>)

  /** Stored objects, fetched and checked; `ms` is the measured time as it will be printed. */
  datatype Fetched = Fetched(payload: Stream, ms: string)

  datatype Resolver = Resolver(fetch: Metadata -> Result<Fetched, RpcError>)

  function Without(md: Metadata, key: string): Metadata {
    md - {key}
  }

  function Stamp(md: Metadata, ms: string, url: string): Metadata {
    md[LOCATION_FETCH_MS_KEY := ms][LOCATION_SOURCE_KEY := url]
  }

  /** A batch's metadata with its provenance set aside. */
  function Unstamped(md: Metadata): Metadata {
    md - {LOCATION_FETCH_MS_KEY, LOCATION_SOURCE_KEY}
  }

  lemma StampUnstamped(md: Metadata, ms: string, url: string)
    ensures Unstamped(Stamp(md, ms, url)) == Unstamped(md)
  {
  }
}
