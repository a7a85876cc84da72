# Verified models of the vgi-rpc client, bridge and browser adapter

A Dafny model of five protocol machines of `vgi-rpc-rust`, with proofs over every input, every run and every
interleaving:

- the shared-memory HTTP adapter: byte rings (`RingProtocol`, `RingClosing`, `SharedRing`), the slotted region with all
  its rings over one buffer (`Region`, `RegionRings`, `RegionMemory`), the request-body budget (`RequestBudget`), the
  request and response envelopes with the loops that read and write them through a ring (`RequestEnvelope`,
  `RequestSpelling`, `RequestReader`, `ResponseEnvelope`, `ResponseWriter`), and a whole claim (`HttpiClaim`);
- the HTTP stream client: frames and externalised payloads (`Frames`, `ResponseFrames`, `ResponseMeaning`,
  `Pointers`), resume blobs (`ResumeToken`), continuation (`HttpStream`, `StreamDelivery`), both together
  (`ExternalizedStream`), retry by dispatch certainty (`Dispatch`) and response limits (`ResponseLimits`);
- the Iroh bridge: admission (`BridgeAdmission`), handler drain (`BridgeDrain`) and header sanitising (`ProxyHeaders`);
- the byte-stream client: the subprocess transport (`Subprocess`) and the lockstep session (`Lockstep`);
- the strict target parser (`HttpiTarget`).

`Bytes`, `HttpiSyntax` and `Separated` hold what they share.

Code that works on fields, arrays and loops is a class or a method proved equal to a step or parse function on values;
the theorems are about those functions, and say what they compute without naming them. Concurrency is a state machine
whose steps are the atomic operations of the parties, or a method that lets the other party move between any two of its
own operations. Clocks, the network, foreign libraries and the other side of a ring are parameters, nondeterministic
steps or first-class functions. A wait that the source leaves unbounded takes a number of wake-ups and may report that
it is still blocked.

Properties that do not hold of the code are stated with their exact condition and an input that fails:

- bytes published between the two loads of a closing poll are lost, unless the peer closes only on a drained ring
  (`NothingLostAtCloseExactly`, `LosingRun`);
- Int32 ring counters measure the fill only within one 2^32 block (`FillExactlyWithinEpoch`), and past 2^31 a negative
  counter can point before the ring (`CellExactly`, `SameBlockWrongCell`); both hold through a claim exactly when its
  counters end below 2^31 (`CountersExactlyBelow`);
- a region whose stride is no multiple of 4 can be accepted with overlapping slots (`PartsDisjointExactly`,
  `MisalignedSlotsOverlap`);
- a bare cursor that opens with a decimal length and a colon is misread (`BareCursorExactly`, `BareCursorMisread`);
- an empty reply with a token ends `next_with_token` but not `tick` (`TickAndNextAgreeExactly`,
  `EmptyReplyParts`);
- a per-peer limit of zero leaves empty entries behind (`EntriesAreLiveExactly`, `ZeroLimitLeavesAnEntry`);
- zero handlers is final only after the drain was closed (`ZeroIsFinalExactly`);
- retries are at most once only where failures carry dispatch certainty (`SendHandsOverAtMostOnce`,
  `AlwaysSafeReplays`);
- an end after an error does not mean a whole stream: it does exactly when the session was not finished before, or had
  already answered with an end (`EndIsWholeExactly`, `EndAfterError`, `EndAfterCut`);
- bytes still come after a deadline has passed, until a read looks at it: the transport is poisoned exactly when some
  read has found its deadline expired (`PoisonedExactly`, `LateByte`).

Two places where the code and its own words differ, and the model follows the code: the target parser's message asks
for ASCII text, but the code accepts bytes from 0x80 up in a path; an empty call token is packed but reads back as none.

## Model

| member | source | states |
|---|---|---|
| `RingProtocol.RingRefinesQueue` | vgi-rpc-iroh-browser/js/adapter-worker.ts:180-285 | Every interleaving of rule-abiding producer and consumer moves from a fresh claim refines a byte queue: fill between 0 and the capacity, every unread byte still in its cell across the wrap, delivered bytes a prefix of written bytes |
| `RingProtocol.MoveSafe` | vgi-rpc-iroh-browser/js/adapter-worker.ts:180-217 | One move of either party keeps the queue, leaves every unread byte in place and only extends what was sent and released |
| `RingProtocol.RunSafe` | vgi-rpc-iroh-browser/js/adapter-worker.ts:180-285 | Any run of moves keeps the queue and only extends both histories |
| `RingProtocol.ScribbleSafe` | vgi-rpc-iroh-browser/js/adapter-worker.ts:196-217 | Storing into a free cell changes no unread byte |
| `RingProtocol.PublishSafe` | vgi-rpc-iroh-browser/js/adapter-worker.ts:275-280 | Advancing the write counter over staged cells keeps first-in first-out order |
| `RingProtocol.CopySafe` | vgi-rpc-iroh-browser/js/adapter-worker.ts:180-194 | Copying out yields the next unread bytes |
| `RingProtocol.CellsDistinct` | vgi-rpc-iroh-browser/js/adapter-worker.ts:186-192 | Positions less than a capacity apart never share a cell, across the wrap too |
| `RingClosing.NothingLostAtCloseExactly` | vgi-rpc-iroh-browser/js/adapter-worker.ts:227-247 | For every rule by which the peer may close, an input found closed was delivered whole in every run if and only if the rule allows a close only on a drained ring, which the peer can check by loading the read counter |
| `RingClosing.LosingRun` | vgi-rpc-iroh-browser/js/adapter-worker.ts:227-247 | Any bytes a rule lets the peer leave unread at a close are lost in some run: all of them published between the two loads |
| `RingClosing.RunDrained` | vgi-rpc-iroh-browser/js/adapter-worker.ts:227-247 | With closes only on a drained ring, every run keeps the queue and a closed ring drained |
| `RingProtocol.FillExactlyWithinEpoch` | vgi-rpc-iroh-browser/js/adapter-worker.ts:229-231 | Int32 counters measure the fill if and only if both lie in the same 2^32 block; otherwise a short fill reads as negative |
| `RingProtocol.CellExactly` | vgi-rpc-iroh-browser/js/adapter-worker.ts:188-188 | For every position and capacity, the remainder of the stored counter is the cell if and only if, negative, it and the position are both multiples of the capacity, or, positive, the dropped 2^32 blocks are |
| `RingProtocol.CountersExactlyBelow` | vgi-rpc-iroh-browser/js/adapter-worker.ts:229-239 | A claim whose counters run from a start below 2^31 to an end reads fill and cells rightly at every fill if and only if the end is below 2^31 |
| `RingProtocol.SameBlockWrongCell` | vgi-rpc-iroh-browser/js/adapter-worker.ts:205-205 | Counters past 2^31 in one block measure the fill and point before the ring |
| `SharedRing.SharedRing.ValidIsQueue` | vgi-rpc-iroh-browser/js/adapter-worker.ts:167-217 | The object's invariant over the shared array is the protocol's queue with counters inside Int32 |
| `SharedRing.SharedRing.PeerProduces` | vgi-rpc-iroh-browser/js/adapter-worker.ts:219-249 | The environment assumption on the producing peer: any number of rule-abiding stores, publications, a close or a lost claim |
| `SharedRing.SharedRing.PeerConsumes` | vgi-rpc-iroh-browser/js/adapter-worker.ts:251-285 | The environment assumption on the consuming peer |
| `SharedRing.SharedRing.CopyRingOut` | vgi-rpc-iroh-browser/js/adapter-worker.ts:180-194 | The two-piece copy returns the next unread bytes although the peer may move before every byte |
| `SharedRing.SharedRing.CopyRingIn` | vgi-rpc-iroh-browser/js/adapter-worker.ts:196-217 | The two-piece copy stages exactly the source slice behind the published end and touches no byte outside the ring |
| `SharedRing.SharedRing.ReadClientChunk` | vgi-rpc-iroh-browser/js/adapter-worker.ts:219-249 | Delivers the next unread bytes, 1 to 65536 of them; an end under a kept claim means the ring is closed and everything seen at the counter load was delivered |
| `SharedRing.SharedRing.WritePass` | vgi-rpc-iroh-browser/js/adapter-worker.ts:259-280 | One pass appends exactly the next slice of the chunk; it reports a full ring or a lost claim only when that is so |
| `SharedRing.SharedRing.WriteWorkerChunk` | vgi-rpc-iroh-browser/js/adapter-worker.ts:251-285 | Appends the chunk to what was sent, or a prefix of it when the claim is lost or the ring stays full; no byte outside the ring changes |
| `SharedRing.SharedRing.CloseOutput` | vgi-rpc-iroh-browser/js/adapter-worker.ts:563-568 | Marks the end of output if and only if the claim still stands, without looking at the signal, and sends nothing |
| `SharedRing.SharedRing.DropClaim` | vgi-rpc-iroh-browser/js/adapter-worker.ts:986-1025 | The claim is lost first and its signal aborted only then |
| `Region.ParseRegion` | vgi-rpc-iroh-browser/js/adapter-worker.ts:901-956 | Every accepted region satisfies the layout inequalities the other lemmas start from |
| `Region.ParseRegionExactly` | vgi-rpc-iroh-browser/js/adapter-worker.ts:901-956 | Exactly the regions with a good target, an aligned offset and a good header are accepted, with the numbers of that header |
| `Region.ParseTargetExactly` | vgi-rpc-iroh-browser/js/adapter-worker.ts:901-956 | Exactly the texts of the two schemes are targets, and each gives its own protocol and endpoint |
| `Region.SlotInBounds` | vgi-rpc-iroh-browser/js/adapter-worker.ts:163-165 | Control words and both rings of every slot of an accepted region whose slot address is below 2^31 lie past the header and inside the buffer, aligned or not |
| `Region.SlotWordExactly` | vgi-rpc-iroh-browser/js/adapter-worker.ts:163-165 | The shifted slot index is the slot's word if and only if the address is below 2^31 |
| `Region.PartsDisjointExactly` | vgi-rpc-iroh-browser/js/adapter-worker.ts:225-226 | No byte belongs to two of the control words, client ring and worker ring of all slots if and only if consecutive slots, rounded down to words, still hold a slot each |
| `Region.AlignedPartsDisjoint` | vgi-rpc-iroh-browser/js/adapter-worker.ts:258-259 | With the slot offset and the stride multiples of 4, every accepted region keeps the control words and both rings of all its slots apart |
| `Region.WordsInControl` | vgi-rpc-iroh-browser/js/adapter-worker.ts:163-165 | Every control word of a slot lies in its control part and two of them share no byte |
| `RegionRings.ReadAt` | vgi-rpc-iroh-browser/js/adapter-worker.ts:219-249 | Reading on one slot keeps the invariant of every other ring of the region, and its data accesses store to no control byte |
| `RegionRings.WriteAt` | vgi-rpc-iroh-browser/js/adapter-worker.ts:251-285 | Writing on one slot keeps the invariant of every other ring of the region, and its data stores touch no control byte |
| `RegionRings.ClaimSlot` | vgi-rpc-iroh-browser/js/adapter-worker.ts:225-226 | The two rings of a claimed slot sit where the adapter computes their offsets, one after the other |
| `RegionMemory.RegionRefinesQueues` | vgi-rpc-iroh-browser/js/adapter-worker.ts:181-285 | All rings of a region over one buffer with their counter words in it: over every interleaving of single memory accesses of all parties, who test only the counters they load, and of stores to other control words, each ring delivers a prefix of what was written, its stored counters measure the fill and every unread byte is in its cell |
| `RegionMemory.RunProjects` | vgi-rpc-iroh-browser/js/adapter-worker.ts:219-285 | What any such run does to one ring is a legal run of that ring alone |
| `RegionMemory.AccessIsMove` | vgi-rpc-iroh-browser/js/adapter-worker.ts:229-239 | The tests on the stored counters admit only moves the protocol allows |
| `RegionMemory.OthersUntouched` | vgi-rpc-iroh-browser/js/adapter-worker.ts:163-217 | An access to one ring or control word leaves the cells and counters of every other ring |
| `RegionMemory.StepGood` | vgi-rpc-iroh-browser/js/adapter-worker.ts:219-285 | One memory access of any party keeps every ring a queue with right counters |
| `Region.MisalignedSlotsOverlap` | vgi-rpc-iroh-browser/js/adapter-worker.ts:901-956 | An accepted header with stride 66 whose slot 0 covers the control words of slot 1 |
| `RequestBudget.RequestBodyBudget.Reserve` | vgi-rpc-iroh-browser/js/adapter-worker.ts:114-125 | Takes the bytes if and only if both the request and the aggregate allow it, else takes nothing and says which failed |
| `RequestBudget.RequestBodyBudget.Release` | vgi-rpc-iroh-browser/js/adapter-worker.ts:127-129 | Subtracts with the clamp at zero |
| `RequestBudget.StepBalanced` | vgi-rpc-iroh-browser/js/adapter-worker.ts:473-561 | Every event of every claim and of raw streams, guarded only by what the code tests, keeps: bytes in use are the sum of live leases within the aggregate, pending operations are the running requests and stream openings within their cap, and the three release sites agree with the number of releases |
| `RequestBudget.GiveBackBalanced` | vgi-rpc-iroh-browser/js/adapter-worker.ts:127-129 | Returning a live lease frees exactly that lease: the clamp does nothing |
| `RequestBudget.BudgetConserved` | vgi-rpc-iroh-browser/js/adapter-worker.ts:734-798 | Over every run of claims, refusals, parse errors, aborts and late settlements the books balance, and a lease has been returned exactly once when its claim has finished and not before: the catch, the finally and the settlement callback exclude each other |
| `RequestBudget.LeaseNeverStuck` | vgi-rpc-iroh-browser/js/adapter-worker.ts:791-798 | In every reachable state at most four further events of the claim alone return its lease: the bytes in use fall by exactly that lease and no other claim moves |
| `RequestBudget.MovesBounded` | vgi-rpc-iroh-browser/js/adapter-worker.ts:704-798 | No run holds more than six events of one claim, body frames apart, whatever the other claims do |
| `RequestBudget.DueAdvances` | vgi-rpc-iroh-browser/js/adapter-worker.ts:791-798 | The next event of a claim that holds a lease is enabled, does not wait for another claim and is one fewer to the return |
| `RequestBudget.BudgetDrains` | vgi-rpc-iroh-browser/js/index.ts:157-193 | Once every claim has finished, nothing stays reserved and only raw stream openings stay charged |
| `RequestEnvelope.RequestRoundTrip` | vgi-rpc-iroh-browser/js/adapter-worker.ts:473-561 | Every encodable request, every split of its body into frames and every value of the ignored bytes parses to exactly that request and leaves exactly what follows the end frame |
| `RequestEnvelope.RequestAppend` | vgi-rpc-iroh-browser/js/adapter-worker.ts:287-332 | A verdict other than an early end does not depend on later bytes |
| `RequestEnvelope.HeadersRoundTrip` | vgi-rpc-iroh-browser/js/adapter-worker.ts:511-529 | Headers come back in order with their byte total |
| `RequestEnvelope.BodyRoundTrip` | vgi-rpc-iroh-browser/js/adapter-worker.ts:530-555 | Every frame split of a body within budget comes back as the body |
| `RequestSpelling.ReadIsSpelled` | vgi-rpc-iroh-browser/js/adapter-worker.ts:473-561 | The converse: whatever is read as a request was spelled as its envelope, with the version and kind, true lengths, legal texts, headers and frames in order within limits and budget, and the end frame |
| `RequestSpelling.HeadRefusedAs` | vgi-rpc-iroh-browser/js/adapter-worker.ts:473-494 | Byte by byte, which openings end early, are no envelope or exceed the head limits |
| `RequestSpelling.FrameRefusedAs` | vgi-rpc-iroh-browser/js/adapter-worker.ts:532-548 | Which body frames are invalid and which the budget refuses, and for which of its two limits, before their payload is read |
| `RequestEnvelope.DecodeExactly` | vgi-rpc-iroh-browser/js/adapter-worker.ts:473-510 | Text is read if and only if it is well-formed, and one leading byte-order mark makes no difference |
| `RequestReader.RingReader.Exact` | vgi-rpc-iroh-browser/js/adapter-worker.ts:309-332 | Returns the next bytes however the ring chunks them; under a kept claim it fails only after taking everything seen at the last load of the write counter, with the ring closed by then or while still waiting |
| `RequestReader.ReadHead` | vgi-rpc-iroh-browser/js/adapter-worker.ts:473-510 | Reads exactly the bytes that parse to the returned head or error |
| `RequestReader.ReadHeaders` | vgi-rpc-iroh-browser/js/adapter-worker.ts:511-529 | Reads exactly the bytes that parse to the returned headers or error |
| `RequestReader.ReadFrame` | vgi-rpc-iroh-browser/js/adapter-worker.ts:532-548 | One body frame is reserved before its payload is read, and the budget moves by exactly that |
| `RequestReader.ReadBody` | vgi-rpc-iroh-browser/js/adapter-worker.ts:530-555 | Reads exactly the body's frames and holds exactly the body's length in the budget |
| `RequestReader.ReadHttpiRequest` | vgi-rpc-iroh-browser/js/adapter-worker.ts:473-561 | The outcome is the parse of exactly the bytes taken; a failure gives the whole reservation back, a success keeps the body's size |
| `RequestReader.ReadEncodedRequest` | vgi-rpc-iroh-browser/js/adapter-worker.ts:473-561 | For requests of every size, every chunking and timing: the request with the cursor right behind its end frame, or a lost claim, or every byte seen was taken, the encoding was not complete in them, and the ring was closed or the reader is still waiting |
| `HttpiClaim.ServeHttpiClaim` | vgi-rpc-iroh-browser/js/adapter-worker.ts:704-899 | End to end over both rings of a slot: what is written is a prefix of the reply to what was read and decodes if and only if it is all there; what was read is the request the client encoded, unless the claim was lost or the ring closed first; the reservation is returned once the node has answered, a completed reply closes the ring and both rings keep their invariants |
| `HttpiClaim.ReplyMeans` | vgi-rpc-iroh-browser/js/adapter-worker.ts:704-732 | The reply is that of the node to the request that was read, or a parse failure before dispatch with its text |
| `HttpiClaim.ServeSlot` | vgi-rpc-iroh-browser/js/adapter-worker.ts:704-899 | Serving a claim on one slot keeps every other ring of the region, and its ring data stores touch no control byte |
| `RequestReader.DecodesToEncoded` | vgi-rpc-iroh-browser/js/adapter-worker.ts:473-561 | Any prefix of an encoded stream that parses to a verdict parses to the request |
| `RequestReader.CompleteNeverEndsEarly` | vgi-rpc-iroh-browser/js/adapter-worker.ts:309-332 | A complete encoding is never reported as an early end |
| `ResponseEnvelope.DecodeInverts` | vgi-rpc-iroh-browser/js/adapter-worker.ts:357-420 | Every sentence, with any bytes behind it, decodes to itself and leaves those bytes |
| `ResponseEnvelope.TruncationDetected` | vgi-rpc-iroh-browser/js/adapter-worker.ts:357-463 | A prefix of a sentence decodes if and only if it is the whole sentence |
| `ResponseEnvelope.CleanResponseRecovered` | vgi-rpc-iroh-browser/js/adapter-worker.ts:800-899 | Decoding a clean response recovers status, ordered headers and the exact body in chunks of at most 65536 bytes, ending complete if and only if the body was exhausted |
| `ResponseEnvelope.AllPiecesKeepBytes` | vgi-rpc-iroh-browser/js/adapter-worker.ts:842-881 | Splitting chunks to the I/O size keeps the body |
| `ResponseEnvelope.SentenceForWellFormed` | vgi-rpc-iroh-browser/js/adapter-worker.ts:704-899 | Every outcome of a claim calls for one well-formed sentence |
| `ResponseEnvelope.FailureReply` | vgi-rpc-iroh-browser/js/adapter-worker.ts:719-838 | What the peer decodes when there is no response to send: one terminal frame with the codes of the failure that happened, the structured one's own if there is one, certainty included, and the sanitized message |
| `ResponseEnvelope.BrokenBodyReply` | vgi-rpc-iroh-browser/js/adapter-worker.ts:840-899 | What the peer decodes when the body breaks off: head and body so far, then a transport failure after dispatch with its message |
| `ResponseEnvelope.RepliesTellFailures` | vgi-rpc-iroh-browser/js/adapter-worker.ts:752-782 | Two failures that share a reply are the same stage, category and certainty |
| `ResponseEnvelope.DetailExactly` | vgi-rpc-iroh-browser/js/adapter-worker.ts:422-431 | The detail is the message cut at 512 bytes with every control byte a space |
| `ResponseWriter.EmitChunk` | vgi-rpc-iroh-browser/js/adapter-worker.ts:842-881 | All frames of one body chunk, or a prefix of them when the claim is lost |
| `ResponseWriter.WriteTerminal` | vgi-rpc-iroh-browser/js/adapter-worker.ts:433-463 | A terminal frame, with its own head when none was written, and then the close |
| `ResponseWriter.ServeBody` | vgi-rpc-iroh-browser/js/adapter-worker.ts:840-899 | The body and its closing frame behind a head already written |
| `ResponseWriter.ServeOutcome` | vgi-rpc-iroh-browser/js/adapter-worker.ts:704-899 | On every outcome the bytes written are a prefix of the one sentence the outcome calls for; the output is closed exactly when all of it is there and the claim is kept; less is written only when the claim was lost or the ring stayed full |
| `ResponseFrames.ParsedStream.ProcessFrame` | vgi-rpc-client/src/http.rs:2410-2512 | One frame changes batches, tokens and logs as the reference step does, pointers followed one level |
| `ResponseFrames.ParsedStream.FollowPointer` | vgi-rpc-client/src/http.rs:2428-2485 | Its own state keys, then every payload frame, then the provenance stamps |
| `ResponseFrames.ParsedStream.Read` | vgi-rpc-client/src/http.rs:2362-2408 | A response parses to at most one batch and is finished exactly when it carries no token |
| `ResponseMeaning.ParseMeans` | vgi-rpc-client/src/http.rs:2362-2512 | For every response and option, said of frames and stored payloads and not of the parser: the callback hears the messages before the first frame that stops; the result is that frame's error, or the failure of more than one result, or the result's batch without state keys and with its provenance, and the last cursor and call token |
| `ResponseMeaning.PointerFreeFails` | vgi-rpc-client/src/http.rs:2410-2427 | Without pointers a response fails if and only if it holds an error envelope, could not be read to its end or has more than one result; the first error envelope wins and the logs are those before it |
| `ResponseMeaning.FollowedMeans` | vgi-rpc-client/src/http.rs:2428-2485 | A pointer gives its own tokens and then what it points at, or the failure to fetch it |
| `ResponseFrames.ExternalizingPreservesMeaning` | vgi-rpc-client/src/http.rs:2410-2512 | Replacing any pointer-free run of frames by one pointer at a stored copy gives the same success or error, logs in order, tokens and batches up to the two provenance keys, whether the tokens ride on the pointer too or not |
| `ResponseFrames.TokensSettle` | vgi-rpc-client/src/http.rs:2436-2444 | A token on the pointer that its payload carries too counts once, and batches, logs and errors do not depend on tokens held before |
| `ResponseFrames.ServerPointerPreservesMeaning` | vgi-rpc/src/external.rs:742-806 | The pointer the server writes, with the batch's metadata both inside and outside, is taken for the batch it stands for |
| `ExternalizedStream.ExternalizedStreamAgrees` | vgi-rpc-client/src/http.rs:2105-2284 | Over every run of ticks, token reads, exchanges and cancels on one stream, a server that stores any runs of any replies outside gives the same requests, batches up to provenance, resume blobs, ends, errors and logs as one that sends them |
| `ExternalizedStream.PiecesAlike` | vgi-rpc-client/src/http.rs:2362-2512 | Storing any number of runs of one reply preserves its meaning |
| `ExternalizedStream.DoAlike` | vgi-rpc-client/src/http.rs:2105-2284 | One call on alike sessions with alike replies gives alike outputs and sessions and the same requests |
| `ExternalizedStream.ServedMeans` | vgi-rpc-client/src/http.rs:1615-1652 | What a session gets from every reply, and how a stream is opened, is what the reply's items mean, carriers of cursors being data in an exchange only |
| `ExternalizedStream.HeardMeans` | vgi-rpc-client/src/http.rs:2105-2284 | The log callback hears the messages of every reply in the order of the requests, and none of a cancel |
| `ResponseFrames.PointerFreeInsideOrOut` | vgi-rpc-client/src/envelope.rs:44-75 | A pointer-free run means the same inside a payload and outside |
| `ResponseFrames.NoPointerIsLost` | vgi-rpc-client/src/http.rs:2362-2512 | A response that parses hands out no pointer as data, and every pointer in it was fetched and held no further pointer |
| `ResumeToken.UnpackInvertsPack` | vgi-rpc-client/src/http.rs:2015-2044 | Cursor and non-empty call token both come back; an empty call token comes back as none |
| `ResumeToken.BareCursorExactly` | vgi-rpc-client/src/http.rs:2015-2044 | A bare cursor comes back as itself if and only if it does not look packed, which a colon-free one never does |
| `ResumeToken.BareCursorMisread` | vgi-rpc-client/src/http.rs:2027-2044 | A cursor with a colon that comes back as something else |
| `ResumeToken.ReadableRoundTrip` | vgi-rpc-client/src/http.rs:2015-2044 | Packing and unpacking is the identity if and only if the position is readable |
| `ResumeToken.PackInjective` | vgi-rpc-client/src/http.rs:2015-2025 | On readable positions the blob determines cursor and call token |
| `ResumeToken.DigitsInvert` | vgi-rpc-client/src/http.rs:2015-2020 | Decimal printing of a length is inverted by its value |
| `HttpStream.HttpStreamSession.Next` | vgi-rpc-client/src/http.rs:2166-2222 | The session's fields, output and requests are those of the reference step |
| `HttpStream.HttpStreamSession.TickOnce` | vgi-rpc-client/src/http.rs:2105-2164 | As above, following tokens over empty replies |
| `HttpStream.HttpStreamSession.ExchangeOnce` | vgi-rpc-client/src/http.rs:2233-2268 | As above for an exchange |
| `HttpStream.HttpStreamSession.CancelStream` | vgi-rpc-client/src/http.rs:2270-2284 | Sends one cancel request if and only if the stream was not cancelled and holds a token, a finished one included, and leaves it cancelled and finished |
| `HttpStream.HttpStreamSession.Seek` | vgi-rpc-client/src/http.rs:2224-2231 | Repositions at a blob and drops what was preloaded |
| `HttpStream.ResumeYieldsTheRest` | vgi-rpc-client/src/http.rs:1676-1692 | Reading k batches and resuming the k-th blob on a fresh client yields exactly the remaining outputs and requests of the uninterrupted run, each with the call token issued at opening |
| `HttpStream.RequestsChained` | vgi-rpc-client/src/http.rs:2094-2329 | Over every run of ticks, token reads, exchanges and cancels each request carries the stream's call token and the cursor issued last, and none follows a cancel |
| `StreamDelivery.InputsReachTheWire` | vgi-rpc-client/src/http.rs:2233-2284 | Over every run the exchange requests carry exactly the inputs of the exchanges let through, in order, and at most one cancel is sent |
| `StreamDelivery.EveryBatchHandedOut` | vgi-rpc-client/src/http.rs:2105-2268 | Over every run, however mixed: what ticks and token reads returned, with what is queued, is what was queued first and then the batches of the replies to their requests; what exchanges returned is the batches of the replies to theirs |
| `StreamDelivery.OpenedStreamHandsOut` | vgi-rpc-client/src/http.rs:1615-1652 | So too from the opening reply, whose batch comes first |
| `StreamDelivery.CallAnswered` | vgi-rpc-client/src/http.rs:2105-2284 | What every call returns: decided by the last reply when it asked, every earlier reply having been a cursor without a batch, and otherwise by the session alone |
| `StreamDelivery.TicksEndWithTheStream` | vgi-rpc-client/src/http.rs:2108-2152 | Ticks report an end only when the server has sent no further cursor and every batch has been handed out |
| `StreamDelivery.SeekExactly` | vgi-rpc-client/src/http.rs:2224-2231 | Seeking does not reopen a cancelled stream and otherwise goes on as a stream resumed at the blob |
| `HttpStream.TickAndNextAgreeExactly` | vgi-rpc-client/src/http.rs:2105-2222 | Both ways of reading give the same outputs from the same requests if and only if no reply that next_with_token meets has a token and no batch; with one request to a call the outputs alone tell |
| `HttpStream.EmptyReplyParts` | vgi-rpc-client/src/http.rs:2206-2212 | At any such reply one way ends the stream, the other asks again |
| `HttpStream.EmptyReplyExample` | vgi-rpc-client/src/http.rs:2117-2144 | A server and a stream on which one ends and the other reads on to a batch |
| `Dispatch.ClientEndpoint.OpenHttp` | vgi-iroh-transport/src/lib.rs:420-450 | Every failure before a stream is open is marked not sent |
| `Dispatch.ClientEndpoint.RequestOnce` | vgi-iroh-transport/src/lib.rs:488-565 | An error says not sent if and only if the request was not given to a stream |
| `Dispatch.ClientEndpoint.Execute` | vgi-rpc-client/src/http.rs:208-270 | Only a failure marked not sent is safe to retry, and a response that does not convert is a failure that is not |
| `Dispatch.ClientEndpoint.Send` | vgi-rpc-client/src/http.rs:1389-1530 | The retry loop's result and the number of hand-overs are those of the reference run |
| `Dispatch.SendHandsOverAtMostOnce` | vgi-rpc-client/src/http.rs:1389-1530 | For every retry configuration and every environment one send hands its request over at most once, exactly once when it returns a response, and gives up without a hand-over only after every attempt |
| `Dispatch.SendDecidedByFirst` | vgi-rpc-client/src/http.rs:1389-1530 | In every environment the first attempt that gets its request to a stream decides: its response is returned if and only if its exchange finished and the response converts, otherwise the send fails there; when no attempt gets there, it fails after all of them |
| `Dispatch.CancellableMeans` | vgi-iroh-transport/src/lib.rs:849-863 | How an operation failed shows in stage and category: aborted, timed out or refused |
| `Dispatch.AlwaysSafeReplays` | vgi-rpc-client/src/http.rs:160-170 | With a backend that marks every failure safe, at most once holds in every environment if and only if there is no retry |
| `ResponseLimits.BuiltFromLastValues` | vgi-rpc-client/src/http.rs:908-947 | For every sequence of setter calls the built limits depend only on the last value of each option, and the accepted maximum never exceeds either ceiling |
| `ResponseLimits.HttpClientBuilder.AcceptedMaxResponseBytes` | vgi-rpc-client/src/http.rs:933-947 | Sets the accepted maximum and the ceilings that were not set explicitly |
| `ResponseLimits.ReadBounded` | vgi-rpc-client/src/http.rs:1960-1991 | Never buffers more than the limit, for any read sizes |
| `ResponseLimits.BoundedExactly` | vgi-rpc-client/src/http.rs:1960-1991 | A body is returned whole if and only if it ends and fits |
| `ResponseLimits.AcceptBody` | vgi-rpc-client/src/http.rs:1427-1517 | The accepted body is the reference's, and the encoded read stays within its limit |
| `ResponseLimits.AcceptedBodyFits` | vgi-rpc-client/src/http.rs:1433-1446 | Every accepted body, whatever its coding, fits the accepted maximum, the decoded ceiling and any server limit |
| `ResponseLimits.IdentityAcceptedExactly` | vgi-rpc-client/src/http.rs:1447-1473 | An identity body is accepted, whole, if and only if it ends, fits, and its declared length fits |
| `ResponseLimits.CompressedAcceptedExactly` | vgi-rpc-client/src/http.rs:1474-1502 | A compressed body is accepted if and only if raw and decoded bytes each end and fit, and is the decoder's whole output |
| `ResponseLimits.OtherAcceptedExactly` | vgi-rpc-client/src/http.rs:1503-1517 | A body in an unknown coding is passed on if and only if it ends within both limits |
| `ResponseLimits.IdentityRefusedAs` | vgi-rpc-client/src/http.rs:1433-1473 | A refused identity body is too large, over the ceiling or broken, each under its exact condition |
| `ResponseLimits.CompressedRefusedAs` | vgi-rpc-client/src/http.rs:1474-1502 | So too a compressed one: over the ceiling raw, too large decoded, or broken |
| `ResponseLimits.WindowLogLeast` | vgi-rpc-client/src/http.rs:350-357 | The zstd window log is the least in 19..31 covering the limit, or 31 |
| `BridgeAdmission.PeerConnectionAdmission.Acquire` | vgi-iroh-bridge/src/lib.rs:674-688 | The lock-guarded map update of an admission or refusal, the entry that a refusal leaves included |
| `BridgeAdmission.PeerConnectionAdmission.DropPermit` | vgi-iroh-bridge/src/lib.rs:696-711 | The saturating decrement and the removal at zero |
| `BridgeAdmission.AdmitStream` | vgi-iroh-bridge/src/lib.rs:633-659 | Takes one permit of each kind or none: a half-acquired pair is given back |
| `BridgeAdmission.StepConserved` | vgi-iroh-bridge/src/lib.rs:561-711 | One lock or semaphore operation of any handler or task keeps every permit free or held by exactly one |
| `BridgeAdmission.AdmissionWithinLimits` | vgi-iroh-bridge/src/lib.rs:561-711 | In every reachable state the map is the live permits per peer and no connection, peer, stream or per-connection limit is passed |
| `BridgeAdmission.AdmittedExactly` | vgi-iroh-bridge/src/lib.rs:561-711 | In every reachable state a try for a peer, connection or stream permit succeeds if and only if its limit is not used up by those who hold one |
| `BridgeAdmission.GlobalIsSumOfLocal` | vgi-iroh-bridge/src/lib.rs:633-659 | Between admissions the global stream permits in use are the sum of the per-connection ones |
| `BridgeAdmission.NothingLeaks` | vgi-iroh-bridge/src/lib.rs:806-809 | Once every handler and task is gone every permit is back and the map is empty |
| `BridgeAdmission.AdmissionAtOnce` | vgi-iroh-bridge/src/lib.rs:633-659 | Without interference the three steps of an admission take the pair or change nothing |
| `BridgeAdmission.EntriesAreLiveExactly` | vgi-iroh-bridge/src/lib.rs:448-469 | Entries stand only for peers with a live permit, in every run, if and only if the per-peer limit is not zero, which validation demands |
| `BridgeAdmission.ZeroLimitLeavesAnEntry` | vgi-iroh-bridge/src/lib.rs:674-688 | The run that leaves an empty entry when the limit is zero |
| `BridgeDrain.HandlerDrain.TryEnter` | vgi-iroh-bridge/src/lib.rs:758-771 | Counts and publishes a new permit, or refuses once closed |
| `BridgeDrain.HandlerDrain.DropPermit` | vgi-iroh-bridge/src/lib.rs:794-804 | Counts down and publishes |
| `BridgeDrain.HandlerDrain.Wait` | vgi-iroh-bridge/src/lib.rs:780-787 | Reports the end exactly when its last look saw no live permit, at once when there is none, through any steps of the others |
| `BridgeDrain.RunCounted` | vgi-iroh-bridge/src/lib.rs:714-804 | In every interleaving the published count is the live permits, and once closed it never rises |
| `BridgeDrain.CountIsAdmittedLessLeft` | vgi-iroh-bridge/src/lib.rs:714-804 | In every run the published count is the handlers that entered before the first close, less those that left |
| `BridgeDrain.ZeroIsFinalExactly` | vgi-iroh-bridge/src/lib.rs:726-735 | Seeing zero means no handler then or ever after, if and only if the drain was closed first |
| `ProxyHeaders.TrimOptionalWhitespace` | vgi-iroh-bridge/src/lib.rs:376-384 | Removes exactly the spaces and tabs around a token |
| `ProxyHeaders.ConnectionNominated` | vgi-iroh-bridge/src/lib.rs:363-374 | The names nominated by all Connection values |
| `ProxyHeaders.NominatedExactly` | vgi-iroh-bridge/src/lib.rs:363-374 | A name is nominated if and only if it is, up to case and blanks, a comma-separated element of a Connection value |
| `ProxyHeaders.ParseNameExactly` | vgi-iroh-bridge/src/lib.rs:363-374 | A name is a token of at most 65535 bytes with its capitals in lower case |
| `ProxyHeaders.StripHopByHop` | vgi-iroh-bridge/src/lib.rs:336-348 | The loop builds exactly the headers that are neither hop-by-hop nor nominated |
| `ProxyHeaders.StrippedIsEndToEnd` | vgi-iroh-bridge/src/lib.rs:336-348 | A name stays if and only if it is neither hop-by-hop nor nominated, keeps its values in order, and stripping is idempotent |
| `ProxyHeaders.SanitizeRequestHeaders` | vgi-iroh-bridge/src/lib.rs:350-355 | Stripped, without host and identity |
| `ProxyHeaders.SanitizeResponseHeaders` | vgi-iroh-bridge/src/lib.rs:357-361 | Stripped, without identity |
| `ProxyHeaders.SanitizingTwice` | vgi-iroh-bridge/src/lib.rs:350-361 | Both sanitizers are idempotent |
| `ProxyHeaders.ResponseKeepsEndToEnd` | vgi-iroh-bridge/src/lib.rs:357-361 | A response keeps exactly the names that are not hop-by-hop, not nominated and not the identity, with their values in order |
| `ProxyHeaders.ForwardedIdentity` | vgi-iroh-bridge/src/lib.rs:280-299 | Whatever the caller sent, upstream sees one identity header that decodes to this peer, one host, no hop-by-hop name, and every other surviving header unchanged |
| `ProxyHeaders.IdentityDistinct` | vgi-iroh-bridge/src/lib.rs:289-299 | Two peers never share an identity header |
| `Separated.SplitJoins` | vgi-iroh-bridge/src/lib.rs:366-367 | Splitting at a separator gives separator-free parts that join to the whole |
| `Separated.JoinSplits` | vgi-rpc-client/src/httpi.rs:89-97 | It is the only such list of parts |
| `Subprocess.ReturnedIsPrefix` | vgi-rpc-client/src/transport.rs:219-267 | In every run, for any read sizes, the bytes returned are a gap-free in-order prefix of what stdout yielded |
| `Subprocess.StepFlows` | vgi-rpc-client/src/transport.rs:385-432 | Every step keeps each byte in exactly one place: returned, buffered, queued, being sent or given up, in order |
| `Subprocess.EndIsComplete` | vgi-rpc-client/src/transport.rs:385-432 | Unless told to stop, an end of stream or read error comes after the last byte |
| `Subprocess.EndsAreTold` | vgi-rpc-client/src/transport.rs:257-266 | In every run a read is told of a failure only when stdout failed, and of an end by a message only when it ended cleanly; never both |
| `Subprocess.FailureNeverSwallowed` | vgi-rpc-client/src/transport.rs:385-432 | Unless told to stop, a read that finds the channel closed comes after a clean end or after a read that was told of the failure |
| `Subprocess.ReplyExactly` | vgi-rpc-client/src/transport.rs:219-267 | A chunk is as much as was asked for and is there, and what was returned; a timeout is answered if and only if the read found its deadline expired |
| `Subprocess.RepliesReturn` | vgi-rpc-client/src/transport.rs:219-267 | Over every run the chunks of the replies are exactly the bytes returned |
| `Subprocess.SendExactly` | vgi-rpc-client/src/transport.rs:414-432 | A message is queued if and only if fewer than eight are |
| `Subprocess.QueueBounded` | vgi-rpc-client/src/transport.rs:325-325 | In no run are more than eight queued |
| `Subprocess.StoppingExactly` | vgi-rpc-client/src/transport.rs:118-140 | The thread is told to stop if and only if the transport was closed or a read found its deadline expired |
| `Subprocess.StartExactly` | vgi-rpc-client/src/transport.rs:95-111 | A turn starts if and only if there is no timeout, or no poison and a deadline that exists, one timeout away |
| `Subprocess.NoByteAfterExpiry` | vgi-rpc-client/src/transport.rs:95-140 | Once a read has found its deadline expired, no later read of that turn and no later turn receives a byte, ever |
| `Subprocess.PoisonedExactly` | vgi-rpc-client/src/transport.rs:219-267 | In every run the transport is poisoned if and only if some read has found its deadline expired |
| `Subprocess.BufferedIgnoresDeadline` | vgi-rpc-client/src/transport.rs:224-229 | Bytes already buffered are handed out however late it is, and the turn stays as it was |
| `Subprocess.LateByte` | vgi-rpc-client/src/transport.rs:219-267 | A run that receives a byte after its deadline has passed, ends its turn unpoisoned and starts the next |
| `Subprocess.NoTurnAfterExpiry` | vgi-rpc-client/src/client.rs:24-41 | After the turn of the expiry is over none starts |
| `Subprocess.SubprocessTransport.Read` | vgi-rpc-client/src/transport.rs:219-267 | A read begins with its own step and ends with the event that answers it, returns the next bytes and at most as many as asked, and times out at once on a poisoned transport; the state is always one that a run reaches |
| `Subprocess.SubprocessTransport.SendReaderMessage` | vgi-rpc-client/src/transport.rs:414-432 | One pass of the send loop: queue, retry when full, or give up when told to stop |
| `Subprocess.SubprocessTransport.ThreadStep` | vgi-rpc-client/src/transport.rs:385-412 | The reader thread does exactly the one action that is due, or nothing once it is over |
| `Subprocess.SubprocessTransport.Start` | vgi-rpc-client/src/transport.rs:95-111 | Starts a turn unless poisoned or out of range |
| `Subprocess.SubprocessTransport.Finish` | vgi-rpc-client/src/transport.rs:113-115 | Clears the deadline |
| `Pointers.ResolveWith` | vgi-rpc-client/src/pointer.rs:62-130 | Fetches and walks one payload: logs dispatched in order, and the outcome of the reference walk |
| `Pointers.WalkExactly` | vgi-rpc-client/src/pointer.rs:84-112 | A payload resolves if and only if it was read to its end, holds only logs and data, and exactly one data batch; its logs are then all dispatched |
| `Pointers.WalkFails` | vgi-rpc-client/src/pointer.rs:84-112 | A payload that does not resolve fails at its first frame that cannot be walked over, with that frame's fault, or by how it ends; exactly the logs before that are dispatched |
| `Pointers.ResolveExactly` | vgi-rpc-client/src/pointer.rs:62-130 | Without a resolver or with a failed fetch, that failure and no logs; otherwise the logs and the one batch of the payload under the pointer's url, or the fault of the walk |
| `Pointers.ResolvedMetadataKeys` | vgi-rpc/src/external.rs:910-932 | No location key from the wire survives, the payload's other keys win over the outer frame's, and provenance is the reader's own |
| `Lockstep.StreamSession.Exchange` | vgi-rpc-client/src/client.rs:716-761 | A tick or exchange is the reference step |
| `Lockstep.StreamSession.ReadNextData` | vgi-rpc-client/src/client.rs:763-810 | The frame loop is the reference read |
| `Lockstep.StreamSession.Cancel` | vgi-rpc-client/src/client.rs:813-840 | The cancel sentinel and the flags are those of the reference step |
| `Lockstep.StreamSession.Close` | vgi-rpc-client/src/client.rs:843-868 | Finishing the input, opening the output and the flags are those of the reference step |
| `Lockstep.OutputOpenedAfterInput` | vgi-rpc-client/src/client.rs:680-709 | In every run the output reader is opened only after an input stream was opened, or that failed |
| `Lockstep.StepWritesItsInput` | vgi-rpc-client/src/client.rs:716-761 | A step that returns a batch wrote exactly its own input; after finish, cancel or close a step does nothing |
| `Lockstep.NoInputAfterEnd` | vgi-rpc-client/src/client.rs:711-868 | After finish, cancel or close no step of any run writes an input but a cancel |
| `Lockstep.DeliversInOrder` | vgi-rpc-client/src/client.rs:763-810 | In every run the logs and batches seen are those of the first output frames, in order, pointers resolved |
| `Lockstep.RunReturns` | vgi-rpc-client/src/client.rs:711-761 | The batches the steps return are exactly the batches delivered, in order |
| `Lockstep.ReadNextExactly` | vgi-rpc-client/src/client.rs:763-810 | Reading passes over logs only and answers with the next other frame: its batch, what its pointer resolves to or its error; it finishes the stream by every error of a frame, by a cut and by the end marker, and not by a failure to read |
| `Lockstep.StepExactly` | vgi-rpc-client/src/client.rs:716-761 | What a step answers and where it leaves the session, by its flags and the transport |
| `Lockstep.CloseFinishesInput` | vgi-rpc-client/src/client.rs:843-868 | In every run the input stream is opened at most once and finished at most once, and a close that starts leaves none unfinished |
| `Lockstep.CloseExactly` | vgi-rpc-client/src/client.rs:843-868 | A close fails only when its turn cannot start; when it can, both ends have been opened or found not to open |
| `Lockstep.CancelWritesSentinel` | vgi-rpc-client/src/client.rs:813-840 | A cancel that succeeds on an unfinished session has written the sentinel as its last input and nothing else |
| `Lockstep.EndIsWholeExactly` | vgi-rpc-client/src/client.rs:716-783 | In every run a step that answers with an end stands on a stream that came to its end marker with every frame read and none of them a failure, if and only if the session was not finished before or an earlier step on the unfinished session had answered with an end |
| `Lockstep.FirstEndIsComplete` | vgi-rpc-client/src/client.rs:768-783 | The first end a caller sees comes only after the end marker with every frame delivered: a cut stream never looks complete |
| `Lockstep.EndAfterError` | vgi-rpc-client/src/client.rs:716-783 | Whatever error finishes the stream, the next step answers with an end, and the stream is not whole |
| `Lockstep.EndAfterCut` | vgi-rpc-client/src/client.rs:716-725 | A second step after a cut stream reports an end: the error is given once |
| `Lockstep.ExternalizedTurnAlike` | vgi-rpc-client/src/client.rs:791-805 | A turn's logs and batch reach the caller alike inline or behind one pointer, up to the location keys |
| `HttpiTarget.AcceptedReprints` | vgi-rpc-client/src/httpi.rs:39-78 | Every accepted text is its target printed again, but for a lone root slash, and every segment of the target is safe |
| `HttpiTarget.ReprintParses` | vgi-rpc-client/src/httpi.rs:39-78 | Every target is read back from its own text, with or without a lone root slash |
| `HttpiTarget.AcceptedExactly` | vgi-rpc-client/src/httpi.rs:39-78 | Exactly those texts are accepted |
| `HttpiTarget.CheckSegmentsExactly` | vgi-rpc-client/src/httpi.rs:89-116 | A path is accepted if and only if every segment is non-empty and decodes to no dot segment and no separator, backslash, blank or control |
| `HttpiTarget.SafeSegmentMeans` | vgi-rpc-client/src/httpi.rs:89-116 | Byte by byte what a safe segment decodes to |
| `HttpiTarget.SegmentRefusedAs` | vgi-rpc-client/src/httpi.rs:89-116 | What a segment is refused for |
| `HttpiTarget.PlainTextMeans` | vgi-rpc-client/src/httpi.rs:39-62 | Byte by byte which texts hold no control and no byte that ends a path |
| `HttpiTarget.TargetRefusedAs` | vgi-rpc-client/src/httpi.rs:39-78 | What a text is refused for, in order |
| `HttpiTarget.ValidateBasePath` | vgi-rpc-client/src/httpi.rs:89-116 | The segment loop is the reference check, with the first error |
| `HttpiTarget.PercentDecodeSegment` | vgi-rpc-client/src/httpi.rs:118-149 | The decoding loop is the reference decoder, errors included |
| `HttpiTarget.DecodeReadsPieces` | vgi-rpc-client/src/httpi.rs:118-158 | Every segment spelled with plain bytes and escapes decodes to what they mean |
| `HttpiTarget.DecodedHasPieces` | vgi-rpc-client/src/httpi.rs:118-158 | Only such segments decode |
| `HttpiTarget.EscapeDecodes` | vgi-rpc-client/src/httpi.rs:118-158 | The escape of every byte, in any mix of cases, decodes to that byte |
| `HttpiTarget.HexExactly` | vgi-rpc-client/src/httpi.rs:150-158 | A byte is the hex digit of a value if and only if it is that digit in one of the two cases |
| `HttpiTarget.DecodeFails` | vgi-rpc-client/src/httpi.rs:118-149 | A segment that does not decode fails at its first backslash or first percent sign without two hex digits |

## Left out

- ReadClientChunk: waits a given number of wake-ups and may report that it is still waiting, because the source's wait has no bound; its first poll always happens.
- WriteWorkerChunk: bounded by wake-ups in the same way, and it assumes the claim's traffic stays below 2^31, as the Int32 counters do.
- CloseOutput: a stopped region and a released claim are one flag, because the code tests them together; a claim that is gone does not come back under the same number.
- ReadEncodedRequest: a reader whose wake-ups ran out reports that it is still waiting, because the source's wait has no bound.
- ServeHttpiClaim: bounded by wake-ups in the same way; the node is a function from requests to outcomes, and its return after a late settlement is in `RequestBudget`.
- Wait: bounded by wake-ups; it may report that handlers are still active, because the source gives up only at a timeout.
- PartsDisjointExactly: for regions whose slots start below 2^31.
- TickOnce: the number of token-following requests in one call is a parameter, because the source's loop ends only when the server does.
- RequestRoundTrip: text is its UTF-8 bytes; a leading byte-order mark, which the decoder drops, is outside what an envelope can carry unchanged.
- SlotInBounds: for a slot address below 2^31, because the source shifts it as a 32-bit integer; SlotWordExactly says what happens above.
- NothingLeaks: for a per-peer limit above zero, which the bridge's validation demands; the other case is in EntriesAreLiveExactly.
- AdmissionWithinLimits: a handler may drop its connection permit before its stream tasks end, which the source does only when it is aborted; the accept loop's idle timer and task joining are not modelled.
- LeaseNeverStuck: says that the claim's own remaining events suffice; that they happen, such as the settling of a wasm request, is up to the host.
- RegionRefinesQueues: words are little-endian, and a claim's counters stay below 2^31; taking a claim, and reading a closed flag or a state word, are not steps.
- CountersExactlyBelow: for counters that start below 2^31.
- ServerPointerPreservesMeaning: for a batch whose own metadata holds no location key.
- ExternalizedStreamAgrees: a stream header read before the first reply is not modelled, and a stored object is found as it was stored.
- NoByteAfterExpiry: reads happen inside a started turn, as in the client; a read outside one is not a step. Reads in the same turn count.
- EndIsComplete: after a stop the thread may give up its last message; how much is lost then is not bounded further.
- ServeOutcome: how the wasm response or error arose is an outcome value; the abort wiring around it is in the budget model only.
- Send: response bodies and delays between attempts are not part of the retry loop's model; bodies are in `ResponseLimits`.
- AcceptBody: decoders are functions from raw bytes to reads; the support header a reply must carry is not modelled.
- ForwardedIdentity: rewriting of the target address and the upstream call are not modelled.
- AcceptedReprints: acceptance of an endpoint id by the Iroh address parser is a predicate parameter.
- ResolveWith: fetching, decompression and the checksum are one function parameter.
- Exchange: shared-memory batches, Arrow schemas and the stream header are not modelled; a write is one operation that succeeds or fails.
- The raw pump of the adapter (`serveClaim`), which copies bytes between both rings and an Iroh stream and publishes a terminal code on failure; slot polling and registration of regions.
- The 415 and 413 flows of `post` and the upload bootstrap they recurse through: bounded only by assumptions about the server.
- Arrow IPC framing, compression, TLS, QUIC, wall-clock time, process killing and thread joining, shared-memory segments, the C interface, macros, command line and reflection.
