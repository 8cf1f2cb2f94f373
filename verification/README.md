# Verification of the Nox client and its TLS helper

Dafny models of the parts of the repository whose correctness is hardest to see, with proofs for all inputs,
all runs and all reachable states. `dafny verify dfyconfig.toml` checks the whole project.

What is modelled, module by module:

- **Erasure decoding** (`Arithmetic`, `GaloisField`, `LinearAlgebra`, `MatrixInversion`, `ErasureCode`,
  `ShardDecoder`): the log and exp tables of GF(2^8), in-place Gauss-Jordan inversion, the normalised Vandermonde
  matrix and the decoder. Reads beyond a table are undefined in the source and act like zero there. An encoding is
  the rows of the encode matrix times the data, since the repository holds no encoder.
- **Reassembly** (`ByteBuffers`, `Reassembly`, `Evictions`, `Reassembler`, `FragmentArrival`, `PayloadSplitting`):
  the message pool with its byte accounting, eviction and pruning, as functions on its contents and as the object
  that updates them; whom it evicts and what it refuses; then arrival in any order, plain and erasure-coded, and the
  splitting of a payload into packets.
- **Wire formats** (`WireFormat`, `Messages`, `Codec`, `ClaimBatch`, `WireLayout`): the binary encoding of requests
  and payloads, as functions and as the writer and reader objects, and the claim batch; and all of them byte by byte.
  Text is a byte sequence.
- **HTTP/1.1** (`HttpText`, `HttpParsing`, `HttpChunks`, `HttpResponses`, `ResponseParser`, `HttpRequests`,
  `RequestFraming`): the incremental response parser, as a function of its state and as the object, over an abstract
  head parser of which only prefix stability is assumed, and what whole responses parse to; the request encoder with
  its padding, and what a server reads from it.
- **Paid execution** (`PaidQuotes`, `PaidLedger`, `PaidExecution`, `PaidReports`, `PaidExits`, `PaidHistories`): the
  client against an abstract chain. The chain is one value, its whole history; block times never decrease, a quote
  settles only while it is valid, and each payment id, intent and execution is consumed once. Whatever exits, readers
  and clocks answer is an argument, so each contract holds for every behaviour of theirs. Reads fail or are truthful,
  at the block asked for or a later one. `PaidExecution` says that what is reported is true, `PaidReports` what is
  reported when.
- **Sending** (`SendRuns`, `SendResends`, `SendClient`): the copies of concurrent calls, one step per callback, in any
  order; and for every event, exactly when it sends a copy, where, and when the call settles.
- **Reply claims** (`ReplyClaims`, `ReplySchedule`, `ReplyLosses`, `ReplyFairness`, `ReplySlots`, `ReplyScheduler`,
  `SurbPool`): claims per entry; the code of a claim before its await is one step and the code after it another. That
  ids belong to one request is what `SurbPool` keeps; that they are random, and each request is tracked at the entry it
  was sent through, is given.
- **Routes** (`RouteSelection`, `RouteProbation`): the greedy choice, every random pick an arbitrary draw.

A module whose name ends in `Object`, and `Codec` and `SendClient`, hold the classes; each of their methods is
proved to be one step of the functions that the theorems are about.

Where code and documentation part, the model follows the code, shows an input and says exactly when they agree:

- The padding of a request promises the next bucket; it can end one byte short (`HttpRequests.OneByteShort`), and
  `HttpRequests.JsonPadding` says when.
- `maxExits` promises to bound every exit a quote request may have reached. When the client has asked a second exit,
  the loop still counts one if that request is rejected, fails, is answered badly, or is answered by the requested
  exit after all; and one asked when a single exit is left is counted too late. So a run can reach twice as many
  (`PaidExits.EveryWayOverruns`, `PaidExits.TwiceAsMany`, exact in `PaidExits.ReachedWithinExactly`); the requests
  stay within `maxExits`.
- The consumed verdicts before the first quote compare two flags. A reader that serves its latest block may read
  them at different blocks, and then this very purchase is mistaken for somebody else's
  (`PaidHistories.WrongVerdict`, exact in `PaidHistories.VerdictsAreFinalExactly`).
- The probation cap promises at most `maxProbation` hops on probation per route while settled candidates exist;
  nodes that are no exits come first, even on probation (`RouteProbation.EntryOnProbation`,
  `RouteProbation.MixOnProbation`, exact in `RouteProbation.CapHoldsExactly`).
- The claim scheduler promises to keep one claim slot free of long polls. An entry with one slot does not, and
  neither does one that changes its protocol version while the two versions have different limits, as the defaults
  have (`ReplySlots.DefaultsFillEverySlot`, exact in `ReplySlots.SlotStaysFreeExactly`).
- Cutting a response differently can make the parser refuse chunk-size or trailer lines that do not fit their
  limits (`HttpChunks.LongLineIsShown`, exact in `HttpParsing.SplitsAgreeExactly`).
- The copying and the solving path of the shard decoder differ when the stated length exceeds the shards
  (`ShardDecoder.PathsDiffer`, exact in `ShardDecoder.PathsAgreeExactly`), and more than 256 shards can be beyond
  recovery (`ShardDecoder.BeyondRecovery`, exact in `ShardDecoder.AnyKOfN`).

## Model

| member | source | states |
|---|---|---|
| GaloisField.BuildTables | packages/nox-client/src/fragmentation.ts:364-379 | filling the tables terminates with exp[i] = x^i twice over and log its inverse on every nonzero byte |
| GaloisField.OrderOfX | packages/nox-client/src/fragmentation.ts:364-379 | x has order exactly 255 modulo the polynomial, so the powers of x run through every nonzero byte |
| GaloisField.ExpOfLog | packages/nox-client/src/fragmentation.ts:364-384 | exp undoes log on every nonzero byte |
| GaloisField.LogOfExp | packages/nox-client/src/fragmentation.ts:364-384 | log undoes exp on every exponent below 255 |
| GaloisField.MulCommutes | packages/nox-client/src/fragmentation.ts:381-384 | multiplication through the tables commutes |
| GaloisField.MulAssociates | packages/nox-client/src/fragmentation.ts:381-384 | and is associative |
| GaloisField.MulDistributes | packages/nox-client/src/fragmentation.ts:381-384 | and distributes over exclusive or |
| GaloisField.MulTwo | packages/nox-client/src/fragmentation.ts:364-384 | multiplying by 2 shifts, and reduces what the shift pushes out |
| GaloisField.NoZeroDivisors | packages/nox-client/src/fragmentation.ts:381-384 | a product is zero only if a factor is |
| GaloisField.MulOfInverse | packages/nox-client/src/fragmentation.ts:392-394 | gfInv gives the multiplicative inverse of every nonzero byte |
| GaloisField.DivUndoesMul | packages/nox-client/src/fragmentation.ts:386-390 | gfDiv undoes gfMul |
| GaloisField.PowBySquaring | packages/nox-client/src/fragmentation.ts:396-408 | square and multiply computes the power, 0 to the 0 being 1 |
| MatrixInversion.KernelOrInverse | packages/nox-client/src/fragmentation.ts:491-537 | every square matrix has an inverse or sends a nonzero vector to zero |
| MatrixInversion.Invert | packages/nox-client/src/fragmentation.ts:491-537 | in-place Gauss-Jordan returns a two-sided inverse, and reports a singular matrix exactly when there is none, with a kernel vector as witness |
| MatrixInversion.FindPivot | packages/nox-client/src/fragmentation.ts:498-511 | finds a pivot at or below the diagonal, or shows the column to be zero there |
| MatrixInversion.Eliminate | packages/nox-client/src/fragmentation.ts:524-533 | clears a column outside its pivot row and keeps every cleared column clear |
| ErasureCode.TooManyRoots | packages/nox-client/src/fragmentation.ts:460-489 | a polynomial with as many distinct roots as coefficients is zero: the reason why Vandermonde rows are independent |
| ErasureCode.VandermondeHasNoKernel | packages/nox-client/src/fragmentation.ts:460-489 | any k Vandermonde rows with different points send only zero to zero |
| ErasureCode.TopRowsAreIdentity | packages/nox-client/src/fragmentation.ts:460-489 | the top k rows of the encode matrix are the identity |
| ErasureCode.AnyRowsInvertible | packages/nox-client/src/fragmentation.ts:460-489 | any k rows of the encode matrix with different points are invertible, so any k of up to 256 |
| ErasureCode.RowsInvertibleExactly | packages/nox-client/src/fragmentation.ts:460-489 | k rows of the encode matrix are invertible if and only if at most one of them is row 0 or beyond the field |
| ErasureCode.TopBeyondField | packages/nox-client/src/fragmentation.ts:472-475 | with more than 256 data shards the top block is singular |
| ErasureCode.RowsArePowers | packages/nox-client/src/fragmentation.ts:463-469 | row r of the Vandermonde matrix is the powers of the element with value r, for every row of the field |
| ErasureCode.RowsBeyondField | packages/nox-client/src/fragmentation.ts:463-469 | a row beyond the field is the powers of zero |
| ErasureCode.EncodeRowExactly | packages/nox-client/src/fragmentation.ts:460-489 | row r of the encode matrix is the one vector that takes the powers of the first k rows to the powers of r |
| ErasureCode.ParityOfTwo | packages/nox-client/src/fragmentation.ts:460-489 | the parity row of two data shards is 3, 2 |
| ErasureCode.ReconstructionUndoesEncoding | packages/nox-client/src/fragmentation.ts:410-458 | the inverse of any k received rows, times the received shards, is the data |
| ShardDecoder.BuildEncodeMatrix | packages/nox-client/src/fragmentation.ts:460-489 | the nested loops compute the normalised Vandermonde matrix, and fail exactly when there are more than 256 data shards |
| ShardDecoder.MulAddInto | packages/nox-client/src/fragmentation.ts:441-453 | the inner loop (skip for 0, plain xor for 1, else logs) adds a multiple of the shard |
| ShardDecoder.Reconstruct | packages/nox-client/src/fragmentation.ts:410-458 | computes the inverse of the first k received rows applied to those shards, or the singular-matrix error exactly when they do not determine the data |
| ShardDecoder.DecodeShards | packages/nox-client/src/fragmentation.ts:284-362 | the method computes Decoded for every input, error cases included |
| ShardDecoder.DecodingRecovers | packages/nox-client/src/fragmentation.ts:284-362 | whatever k or more shards survive, decoding gives the data cut, or in the matrix path cut or zero-filled, to the stated length; it fails exactly when a data shard is missing and two shards used are shard 0 or beyond the field |
| ShardDecoder.AnyKOfN | packages/nox-client/src/fragmentation.ts:284-362 | any k of the n shards give back the first originalDataLen bytes: always for n up to 256, beyond if and only if the data is all there or the shards used are recoverable |
| ShardDecoder.BeyondRecovery | packages/nox-client/src/fragmentation.ts:410-489 | two survivors of 258 shards, both beyond the field: whatever the data is, decoding fails as singular |
| ShardDecoder.PathsAgreeExactly | packages/nox-client/src/fragmentation.ts:284-362 | copying the data shards and solving for them agree if and only if the stated length fits the shards |
| ShardDecoder.PathsDiffer | packages/nox-client/src/fragmentation.ts:311-361 | one shard and its parity with a stated length one too long: the paths differ by a zero byte |
| ShardDecoder.LostShardIsSolved | packages/nox-client/src/fragmentation.ts:284-362 | shards 0, none and 1 with two data shards decode to 0, 142 |
| ShardDecoder.FailsExactly | packages/nox-client/src/fragmentation.ts:284-362 | decoding fails if and only if too few shards are there, or a data shard is missing and those used are empty or cannot be solved |
| Reassembly.AddKeepsGood | packages/nox-client/src/fragmentation.ts:105-163 | adding a fragment, accepted or refused, keeps every counter exact and every kept message non-empty and incomplete |
| Reassembly.AddKeepsLimits | packages/nox-client/src/fragmentation.ts:105-163 | a fragment that fits keeps bytes and message count within their limits |
| Reassembly.MakeRoomKeepsGood | packages/nox-client/src/fragmentation.ts:211-237 | eviction terminates on the message count and leaves room, or nothing to evict |
| Reassembly.DropKeepsGood | packages/nox-client/src/fragmentation.ts:221-237 | removing a message keeps the byte counter exact, so its clamp at zero never bites |
| Reassembly.PruneKeepsFresh | packages/nox-client/src/fragmentation.ts:166-189 | pruning keeps exactly the messages that are not stale, untouched |
| Reassembly.EveryRunIsGood | packages/nox-client/src/fragmentation.ts:91-237 | all of this after every sequence of adds, refused ones included, and prunes |
| Evictions.RoomEvictsNobody | packages/nox-client/src/fragmentation.ts:211-219 | a fragment for which there is room evicts nobody and touches no other message |
| Evictions.AddEvictsLongestIdle | packages/nox-client/src/fragmentation.ts:211-237 | those evicted were idle at least as long as every other message that is kept |
| Evictions.EvictsNoMore | packages/nox-client/src/fragmentation.ts:211-237 | without the last eviction the fragment would not have fitted |
| Evictions.StoredFragment | packages/nox-client/src/fragmentation.ts:122-163 | a stored fragment joins those of its message and makes it the most recently active |
| Evictions.AcceptsExactly | packages/nox-client/src/fragmentation.ts:105-120 | which fragments can be stored |
| Evictions.RefusedExactly | packages/nox-client/src/fragmentation.ts:105-150 | a call is refused if and only if the fragment is impossible, its sequence holds other data, or it disagrees with its message on the total or the erasure parameters |
| ReassemblerObject.Reassembler.constructor | packages/nox-client/src/fragmentation.ts:98-103 | starts empty with the given limits |
| ReassemblerObject.Reassembler.Add | packages/nox-client/src/fragmentation.ts:105-163 | the method is one AddFragment on the contents, errors and duplicates included |
| ReassemblerObject.Reassembler.EnsureCapacity | packages/nox-client/src/fragmentation.ts:211-219 | evicts oldest messages until the fragment fits |
| ReassemblerObject.Reassembler.EvictOldest | packages/nox-client/src/fragmentation.ts:221-237 | removes the message idle longest, the first stored among equals |
| ReassemblerObject.Reassembler.PruneStale | packages/nox-client/src/fragmentation.ts:166-189 | removes the stale messages and returns how many |
| ReassemblerObject.Reassembler.MessageProgress | packages/nox-client/src/fragmentation.ts:195-199 | received and expected counts; a kept message has some of its fragments and lacks some |
| ReassemblerObject.Assemble | packages/nox-client/src/fragmentation.ts:64-89 | concatenates the stored data in sequence order, or hands the shards to the decoder |
| ReassemblerObject.BytesEqual | packages/nox-client/src/fragmentation.ts:539-543 | byte by byte comparison is equality |
| FragmentArrival.ArrivalDelivers | packages/nox-client/src/fragmentation.ts:105-163 | in any order with any repeats before completion a fresh default reassembler answers null until the last needed fragment, which delivers; nothing is left behind |
| FragmentArrival.RepeatIsIgnored | packages/nox-client/src/fragmentation.ts:105-120 | a repeated fragment changes nothing |
| FragmentArrival.CodedFragmentsReassemble | packages/nox-client/src/fragmentation.ts:57-89 | end to end with erasure coding: the k-th distinct fragment, whichever k arrive, delivers the original bytes |
| PayloadSplitting.PacketsFor | packages/nox-client/src/client.ts:1836-1855 | the loop yields one packet for a small payload, else the encoded fragments in order, each within 31,716 bytes |
| PayloadSplitting.PacketFits | packages/nox-client/src/client.ts:1836-1855 | every encoded fragment fits 31,716 bytes |
| PayloadSplitting.ChunksAreFull | packages/nox-client/src/client.ts:1836-1855 | every chunk but the last has 31,684 bytes |
| PayloadSplitting.PacketDecodes | packages/nox-client/src/bincode.ts:859-884 | every packet decodes to its fragment |
| PayloadSplitting.FragmentsReassemble | packages/nox-client/src/client.ts:1836-1855 | the fragments of a payload, in any order with repeats, reassemble to exactly the payload |
| Messages.FragmentBack | packages/nox-client/src/bincode.ts:859-884 | a written fragment reads back, whatever follows it |
| Messages.PayloadBack | packages/nox-client/src/bincode.ts:891-973 | a written payload reads back and reading stops where it ended |
| Messages.HeadersBack | packages/nox-client/src/bincode.ts:1075-1165 | a header list of any length reads back in order |
| Messages.RequestBack | packages/nox-client/src/bincode.ts:975-1165 | a written service request reads back and reading stops where it ended |
| Messages.RequestRoundTrip | packages/nox-client/src/bincode.ts:253-282 | decoding undoes encoding, and any suffix is refused as trailing bytes |
| Messages.PayloadRoundTrip | packages/nox-client/src/bincode.ts:261-273 | decoding undoes encoding and ignores a suffix |
| WireLayout.RequestLayout | packages/nox-client/src/bincode.ts:975-1073 | every request is version 1, the tag of its variant and its fields in order, integers with their low byte first |
| WireLayout.PayloadLayout | packages/nox-client/src/bincode.ts:891-929 | the same for payloads and fragments |
| WireLayout.TransactionVector | packages/nox-client/src/bincode.ts:975-1073 | a transaction request byte for byte |
| WireLayout.RefusesWrongSizes | packages/nox-client/src/bincode.ts:975-1073 | the requests the writer refuses, by the sizes of their fields |
| WireLayout.UnknownMessagesAreRefused | packages/nox-client/src/bincode.ts:931-1165 | another version or an unknown tag is refused |
| Codec.EncodeServiceRequest | packages/nox-client/src/bincode.ts:253-258 | the writer object produces exactly the encoding |
| Codec.DecodeServiceRequest | packages/nox-client/src/bincode.ts:276-282 | the reader object returns exactly the decoded request or its fault |
| Codec.EncodeRelayerPayload | packages/nox-client/src/bincode.ts:261-266 | the same for payloads |
| Codec.DecodeRelayerPayload | packages/nox-client/src/bincode.ts:269-273 | the same for payloads |
| Codec.WriteRequest | packages/nox-client/src/bincode.ts:975-1073 | appends exactly the encoding to what was written before |
| Codec.WritePayload | packages/nox-client/src/bincode.ts:891-929 | the same; a target that is not 20 bytes is refused |
| Codec.ReadRequest | packages/nox-client/src/bincode.ts:1075-1165 | advances the position exactly past what it returns, or reports the fault |
| Codec.ReadPayload | packages/nox-client/src/bincode.ts:931-973 | the same for payloads |
| Codec.Reader.HeaderList | packages/nox-client/src/bincode.ts:1075-1165 | the loop reads the stated number of headers or reports the first fault |
| ClaimBatch.EncodeBinaryClaim | packages/nox-client/src/transport.ts:316-337 | fills one array of exactly the total size with the batch |
| ClaimBatch.DecodeBinaryClaim | packages/nox-client/src/transport.ts:268-307 | walks the body once; any malformed item or leftover byte fails the whole batch |
| ClaimBatch.BatchRoundTrip | packages/nox-client/src/transport.ts:268-337 | decoding undoes encoding for every batch of printable non-empty ids |
| WireLayout.BatchLayout | packages/nox-client/src/transport.ts:316-337 | a batch is its version, a 16-bit count and its items, high bytes first |
| WireLayout.BatchVectors | packages/nox-client/src/transport.ts:316-337 | two items, and none, byte for byte |
| WireLayout.BrokenBatchesAreRefused | packages/nox-client/src/transport.ts:268-307 | a batch cut short anywhere, or with bytes behind it, is refused |
| WireLayout.BadIdsAreRefused | packages/nox-client/src/transport.ts:268-307 | an item with an empty or unprintable id fails the whole batch, and says which |
| WireLayout.OtherVersionsAreRefused | packages/nox-client/src/transport.ts:268-307 | as are another version and a body without a header |
| HttpText.AgreedExactly | packages/nox-tls/src/http1.rs:521-546 | a content length is found exactly when every part of every field states that length |
| HttpText.FindContentLength | packages/nox-tls/src/http1.rs:521-546 | the nested loops compute it |
| HttpText.FindCrlf | packages/nox-tls/src/http1.rs:559-561 | the first line end, or none |
| HttpParsing.StepFits | packages/nox-tls/src/http1.rs:231-259 | in every reachable state the body is within its limit, what is owed is positive, and a turn that continues the loop shortens the buffer |
| HttpParsing.SplitInvariance | packages/nox-tls/src/http1.rs:231-259 | pushing a then b is pushing a + b, when chunk-size lines with CR fit 1,024 bytes and trailer lines the head limit |
| HttpParsing.AnyChunkingSame | packages/nox-tls/src/http1.rs:231-259 | so does every way of cutting a response into pushes |
| HttpParsing.SplitsAgreeExactly | packages/nox-tls/src/http1.rs:420-499 | for every stream, all ways of cutting it into pieces agree if and only if one push refuses it or those lines fit |
| HttpParsing.CutsOnlyRefuse | packages/nox-tls/src/http1.rs:231-259 | whatever two pushes accept, one push accepts with the same result: cutting never makes the parser accept more |
| HttpParsing.PiecesOnlyRefuse | packages/nox-tls/src/http1.rs:231-259 | the same for any number of pushes |
| HttpParsing.LongLineFails | packages/nox-tls/src/http1.rs:420-499 | cut before the LF of a line that does not fit, the parser fails |
| HttpChunks.LongExtensionIsRefused | packages/nox-tls/src/http1.rs:421-428 | a chunked response with a long chunk extension: accepted in one push, refused when cut before the LF |
| HttpChunks.LongLineIsShown | packages/nox-tls/src/http1.rs:421-428 | the same for a concrete parser and every data, extension and head bytes |
| HttpChunks.ChunkedBodyParses | packages/nox-tls/src/http1.rs:420-499 | parsing the chunked encoding of any chunks within the limit gives their concatenation (section 7.1 of RFC 9112) |
| HttpChunks.ChunkedResponseAnyCut | packages/nox-tls/src/http1.rs:399-517 | the same for a whole chunked response cut into pushes in any way |
| HttpChunks.BadSizesAreRefused | packages/nox-tls/src/http1.rs:421-453 | a size line without a number, or a chunk beyond the body limit, is refused |
| HttpChunks.MissingLineEndIsRefused | packages/nox-tls/src/http1.rs:469-481 | chunk data without its line end is refused |
| HttpChunks.TrailersAreSkipped | packages/nox-tls/src/http1.rs:482-497 | trailer lines change nothing |
| HttpResponses.LengthResponseAnyCut | packages/nox-tls/src/http1.rs:300-418 | interim heads, a head that states n within the limit and n bytes, cut in any way: complete with exactly those bytes and the keep-alive of the head |
| HttpResponses.OtherLengthsAnyCut | packages/nox-tls/src/http1.rs:300-418 | with fewer bytes it waits for the rest, with more or beyond the limit it is refused |
| HttpResponses.BodilessResponseAnyCut | packages/nox-tls/src/http1.rs:363-397 | the answer to HEAD, a 204 and a 304 end with their head whatever length they state |
| HttpResponses.OpenResponseAnyCut | packages/nox-tls/src/http1.rs:364-418 | without length and chunks everything behind the head is body up to the limit, left to a close to end, and the connection ends |
| HttpResponses.InterimHeadsAreSkipped | packages/nox-tls/src/http1.rs:344-352 | interim heads change nothing about the response behind them |
| HttpResponses.BadHeadsAreRefused | packages/nox-tls/src/http1.rs:300-397 | no response, too long a head, no status, 101, or lengths that disagree: refused, in any cut |
| HttpResponses.HelloParses | packages/nox-tls/src/http1.rs:300-418 | Content-Length 5 and five bytes behind any head bytes give those five bytes |
| HttpResponses.VersionDecides | packages/nox-tls/src/http1.rs:354-359 | without a Connection field 1.1 keeps the connection and 1.0 does not |
| HttpResponses.ListDecides | packages/nox-tls/src/http1.rs:354-359 | a Connection list: close beats keep-alive, which beats the version |
| HttpResponses.SplitListed | packages/nox-tls/src/http1.rs:548-550 | splitting a list at its commas gives its words |
| HttpResponses.PlainLength | packages/nox-tls/src/http1.rs:521-546 | a field of decimal digits states that number |
| HttpResponses.OtherTextIsNoLength | packages/nox-tls/src/http1.rs:521-546 | a part that is no decimal number states none |
| ResponseParserObject.ResponseParser.Push | packages/nox-tls/src/http1.rs:231-259 | the method completes, waits or fails exactly as driving the buffered and pushed bytes does |
| ResponseParserObject.ResponseParser.ParseHead | packages/nox-tls/src/http1.rs:300-397 | one head turn: interim responses skipped, framing by section 6.3 of RFC 9112, limits enforced |
| ResponseParserObject.ResponseParser.ParseBody | packages/nox-tls/src/http1.rs:399-418 | one body turn; the remaining length never underflows and a framed body never trips the limit |
| ResponseParserObject.ResponseParser.ParseChunk | packages/nox-tls/src/http1.rs:420-499 | one chunk turn |
| ResponseParserObject.ResponseParser.AppendBody | packages/nox-tls/src/http1.rs:508-517 | appends, or refuses what exceeds the body limit |
| ResponseParserObject.ResponseParser.FinishOnClose | packages/nox-tls/src/http1.rs:263-285 | only a close-delimited body ended by close_notify is completed by a close |
| ResponseParserObject.ResponseParser.TakeResponse | packages/nox-tls/src/http1.rs:288-298 | hands the response out once complete |
| ResponseParserObject.NothingLeftOver | packages/nox-tls/src/http1.rs:231-259 | after a successful push a complete parser holds no bytes |
| HttpRequests.PaddedLenIsLeast | packages/nox-tls/src/http1.rs:48-55 | the padded length is the least bucket that holds the request |
| HttpRequests.DigitsBound | packages/nox-tls/src/http1.rs:146-148 | n has d decimal digits exactly between the powers of ten |
| HttpRequests.JsonPadding | packages/nox-tls/src/http1.rs:132-144 | nothing underflows, one correction is enough, and the padded request is its bucket or one byte short: short if and only if taking off the new digits steps back over a power of ten |
| HttpRequests.OneByteShort | packages/nox-tls/src/http1.rs:132-144 | a head of 3,075 and a body of 5 bytes make a padded request of 4,095 bytes for the bucket of 4,096 |
| HttpRequests.EncodeRequest | packages/nox-tls/src/http1.rs:58-128 | accepts exactly the clean requests, writes the kept headers and its own lines, states the padded length, and fills the bucket to within one byte |
| HttpRequests.RequestReadsBack | packages/nox-tls/src/http1.rs:58-128 | whatever the caller passes, the message reads back as exactly those lines and the body: nothing can be injected |
| RequestFraming.ServerReads | packages/nox-tls/src/http1.rs:58-128 | what a server reads: request line, one host, the kept headers, the two own lines, the length if and only if there is one to state, and exactly as many bytes behind the head: the body, then spaces |
| RequestFraming.HeaderIsKeptExactly | packages/nox-tls/src/http1.rs:87-105 | a header with one of the ten reserved names, or a proxy name, leaves no trace; every other one is kept in its place |
| RequestFraming.RefusesInjection | packages/nox-tls/src/http1.rs:66-100 | CR, LF or NUL anywhere, an empty method, authority or target, or a target that is no path: nothing is sent |
| RequestFraming.AcceptsPlain | packages/nox-tls/src/http1.rs:66-100 | and clean text is sent |
| RequestFraming.TokenBytes | packages/nox-tls/src/http1.rs:155-159 | token bytes are those of section 5.6.2 of RFC 9110 |
| RequestFraming.DecimalBack | packages/nox-tls/src/http1.rs:119-123 | the stated length reads back as the number |
| PaidQuotes.CapCoversPlan | packages/nox-client/src/paid_execute.ts:397-437 | the unclamped cap covers all gas planned for |
| PaidQuotes.PlanCoversReserve | packages/nox-client/src/paid.ts:223-229 | every plan passes the gas check of the quote request; planning fails only for invalid input or a clamp below the reserve |
| PaidQuotes.EstimateFits | packages/nox-client/src/paid_execute.ts:838-845 | an estimate within the headroom, buffered and rounded up, fits the unclamped cap |
| PaidQuotes.PreflightAccepts | packages/nox-client/src/paid_execute.ts:838-845 | preflight accepts an estimate if and only if buffer and all fit the cap; without a clamp, every estimate within the headroom |
| PaidQuotes.EnvelopeIsLeast | packages/nox-client/src/paid_execute.ts:421-422 | the envelope is the least gas that pays for the transaction, its calldata and the data fee with its headroom |
| PaidQuotes.CapIsLeast | packages/nox-client/src/paid_execute.ts:420-437 | the cap is the least that holds limits, reserve and envelope with both buffers, or the clamp below it |
| PaidQuotes.PlanVectors | packages/nox-client/src/paid_execute.ts:397-437 | five plans in numbers, a refused clamp among them |
| PaidQuotes.SendableRequests | packages/nox-client/src/paid.ts:198-233 | which quote requests leave the client |
| PaidLedger.FindSettlement | packages/nox-client/src/paid_execute.ts:1094-1106 | asks for ranges of at most 2,000 blocks that cover the span, newest first, and answers the first event |
| PaidLedger.SettlementIsFound | packages/nox-client/src/paid_execute.ts:1094-1106 | it finds the settlement in the span when no query fails |
| PaidLedger.FoundIsExact | packages/nox-client/src/paid_execute.ts:1094-1106 | what it finds is an event of the span, nothing means that there is none, and it fails only when a query does |
| PaidLedger.LogsExact | packages/nox-client/src/paid_execute.ts:461-480 | a range holds at most one event for an id |
| PaidLedger.TooLate | packages/nox-client/src/paid_execute.ts:1214-1249 | an id seen unconsumed at a block past the deadline: the quote never settles, at any block |
| PaidLedger.TakenByAnother | packages/nox-client/src/paid_execute.ts:1109-1156 | an id consumed by another quote: the quote never settles |
| PaidLedger.FlagsDecide | packages/nox-client/src/paid_execute.ts:597-629 | flags read at two blocks, one set and one not: the quote never settles, unless it settled between the reads |
| PaidHistories.SettlingIsLawful | packages/nox-client/src/paid_execute.ts:1051-1064 | the chain on which one quote settles once is lawful |
| PaidHistories.FlagsDecideExactly | packages/nox-client/src/paid_execute.ts:597-629 | such reads decide that a quote never settles, on every chain that gives them, if and only if the set flag was not read later |
| PaidHistories.WrongVerdict | packages/nox-client/src/paid_execute.ts:597-629 | for every purchase and every lag between the reads, a chain on which the verdict is consumed by another while this purchase settles |
| PaidHistories.VerdictsAreFinalExactly | packages/nox-client/src/paid_execute.ts:597-629 | the verdicts INTENT_CONSUMED and PAYMENT_CONSUMED are final on every chain that gives them if and only if the set flag was not read at a later block |
| PaidLedger.OnePaymentId | packages/nox-client/src/paid_execute.ts:866-880 | quotes that share a payment id and stay under a cap never take more than the cap together, over any number of blocks, submissions and runs |
| PaidExecution.Resume | packages/nox-client/src/paid_execute.ts:1109-1156 | computes Resumed; a reported settlement is on the chain, took this payment and executed this action; not-paid means that another action consumed the payment |
| PaidReports.ResumeReports | packages/nox-client/src/paid_execute.ts:1109-1156 | a settlement by this payment within the lookback is reported as settled or failed, or as spent on another action |
| PaidReports.ResumeCannotLink | packages/nox-client/src/paid_execute.ts:1109-1156 | a transaction that cannot be read back to its quote gives unknown with the execution |
| PaidReports.ResumeFindsNothing | packages/nox-client/src/paid_execute.ts:1109-1156 | nothing in the lookback gives unknown |
| PaidExecution.PaymentEvidence | packages/nox-client/src/paid_execute.ts:1214-1249 | computes EvidenceOf; expired means that the payment was unconsumed at a block past the deadline; with wait it never answers unconsumed |
| PaidReports.EvidenceDecides | packages/nox-client/src/paid_execute.ts:1214-1249 | the first round that decides, decides, whatever the rounds before extended |
| PaidReports.ExpiryDecides | packages/nox-client/src/paid_execute.ts:1214-1249 | unconsumed past the deadline: expired |
| PaidReports.ConsumptionDecides | packages/nox-client/src/paid_execute.ts:1214-1249 | consumed: what resume makes of it |
| PaidReports.OneRoundAnswers | packages/nox-client/src/paid_execute.ts:1214-1249 | without waiting one round answers |
| PaidReports.WaitsForExpiry | packages/nox-client/src/paid_execute.ts:1214-1249 | unless the caller set a timeout the loop does not give up before the quote has expired and a minute more |
| PaidExecution.EventMatches | packages/nox-client/src/paid_execute.ts:1251-1267 | the event of a quote that matches its request passes every field comparison |
| PaidExecution.AwaitSettlement | packages/nox-client/src/paid_execute.ts:1172-1208 | computes AwaitOf; a quote called expired never settles; a reported settlement is real |
| PaidReports.AwaitReports | packages/nox-client/src/paid_execute.ts:1172-1208 | the first round that sees the execution consumed and covers its settlement reports that event, settled or failed |
| PaidReports.AwaitExpires | packages/nox-client/src/paid_execute.ts:1172-1208 | the first round that sees it unconsumed past the deadline calls it expired |
| PaidReports.AwaitGivesUp | packages/nox-client/src/paid_execute.ts:1172-1208 | a round that decides nothing after the end of the wait gives unknown |
| PaidReports.AwaitLasts | packages/nox-client/src/paid_execute.ts:898-915 | how long it waits |
| PaidExecution.CheckState | packages/nox-client/src/paid_execute.ts:570-655 | goes on only with payment and intent unconsumed and nothing pending that can still settle; answers disagreeing flags with their verdict |
| PaidReports.GoesOnExactly | packages/nox-client/src/paid_execute.ts:570-655 | a purchase goes on if and only if it is allowed, readable, unconsumed in both flags, and nothing pending can still settle |
| PaidReports.SaysWhyNot | packages/nox-client/src/paid_execute.ts:570-655 | otherwise the verdict, case by case |
| PaidReports.CallingAgainResumes | packages/nox-client/src/paid_execute.ts:570-629 | calling again after the purchase settled reports that settlement |
| PaidExecution.AskQuote | packages/nox-client/src/paid_execute.ts:697-742 | a quote that is returned matches the request and its bounds; a request that does not end the run is charged for one or two exits |
| PaidReports.QuoteTakenExactly | packages/nox-client/src/paid_execute.ts:697-742 | a quote is taken if and only if a valid request was sent and the exit that answers signed, for itself, a bounded quote of version 1 that matches |
| PaidReports.QuoteIsForThis | packages/nox-client/src/paid_execute.ts:697-742 | a quote that is submitted is for this purchase in every field, bounded, and valid for at most two minutes |
| PaidReports.RequestIsPlanned | packages/nox-client/src/paid_execute.ts:697-717 | what is asked for, until when |
| PaidExecution.Refusal | packages/nox-client/src/paid_execute.ts:744-864 | a quote is submitted only within the fee cap, with time left, a successful simulation and its buffered gas within the plan |
| PaidReports.SubmitsExactly | packages/nox-client/src/paid_execute.ts:744-864 | a quote is submitted if and only if fee, activity, both deadlines, payment data, simulation and buffered gas are as they should be and it is no dry run |
| PaidReports.RefusalNames | packages/nox-client/src/paid_execute.ts:744-864 | the failure that is named is one that happened |
| PaidExecution.Confirm | packages/nox-client/src/paid_execute.ts:866-925 | not-paid after a submission only if the payment went elsewhere |
| PaidExecution.TakeTurn | packages/nox-client/src/paid_execute.ts:690-925 | one turn: what it submits, what it adds to contacted and whether the loop goes on |
| PaidExecution.Attempt | packages/nox-client/src/paid_execute.ts:665-928 | submits exactly the quotes of Sent, all for this action and payment and under the cap, in at most maxExits requests, none after contacted has reached maxExits |
| PaidExits.RunIsAccounted | packages/nox-client/src/paid_execute.ts:718-742 | the exits a run reached are those it counted and those it missed, less those it counted in vain |
| PaidExits.ReachedWithinExactly | packages/nox-client/src/paid_execute.ts:665-742 | the exits reached stay within maxExits if and only if the second exits asked fit what the requests leave; for a run that used up its exits, if and only if the exits missed, and the one overdrawn, are made up for by those counted in vain; never more than twice the requests |
| PaidExits.TwiceAsMany | packages/nox-client/src/paid_execute.ts:718-723 | for every maxExits and whichever exits are asked, rejections after a resend make a run reach twice as many |
| PaidExits.OneAllowedTwoReached | packages/nox-client/src/paid_execute.ts:725-742 | with maxExits at one, any request that is resent reaches two, whoever answers |
| PaidExits.EveryWayOverruns | packages/nox-client/src/paid_execute.ts:718-742 | a concrete purchase that overruns in each of seven ways, a valid quote of the requested exit after a resend among them |
| PaidExecution.Latest | packages/nox-client/src/paid_execute.ts:546-558 | the submitted quote that stays valid longest |
| PaidExecution.ExecutePaid | packages/nox-client/src/paid_execute.ts:546-563 | against every exit and reader: not-paid means that no quote submitted in the run ever settles; settled is true; the run costs at most maxTotalFee and reaches at most twice maxExits exits; a consumed payment or intent, or a pending execution that may settle, keeps it from asking for a quote |
| PaidReports.PurchaseIsReported | packages/nox-client/src/paid_execute.ts:546-928 | after any turns without a quote, a submitted purchase that settles while the client waits is reported with its event |
| PaidReports.ExpiredIsNotPaid | packages/nox-client/src/paid_execute.ts:546-928 | a purchase that expires unsettled with no exit left is not paid once the chain shows so |
| PaidReports.NoQuoteIsNotPaid | packages/nox-client/src/paid_execute.ts:665-742 | without any quote the call ends with what the last exit said |
| PaidReports.BufferGrows | packages/nox-client/src/paid_execute.ts:866-925 | after GasCapExceeded the next request is planned with 1,000 basis points more |
| SendRuns.PlanResend | packages/nox-client/src/client.ts:1355-1387 | a resend differs in a hop and keeps version 2 |
| SendRuns.PlanTransportResend | packages/nox-client/src/client.ts:1390-1407 | a transport resend keeps version 2 |
| SendRuns.StepCallKeepsGood | packages/nox-client/src/client.ts:1183-1331 | every callback keeps the books of its call |
| SendRuns.StepKeepsGood | packages/nox-client/src/client.ts:1183-1331 | and the hedge counter equal to the live hedges of all calls |
| SendRuns.StepKeepsLimit | packages/nox-client/src/client.ts:1316-1330 | live hedges never exceed the limit |
| SendRuns.ClampNeverBites | packages/nox-client/src/client.ts:1204-1208 | the counter is positive whenever a hedge ends |
| SendRuns.SettledStays | packages/nox-client/src/client.ts:1191-1200 | a settled call launches and settles nothing more |
| SendRuns.EveryStateIsGood | packages/nox-client/src/client.ts:1160-1338 | after every interleaving of callbacks of all calls: promises carry the first answer or the failure of a copy, copies sent are exactly the resends used, and hedges stay within maxHedgesInFlight |
| SendRuns.EveryRunIsSafe | packages/nox-client/src/client.ts:1160-1338 | in every state of every run a call settles exactly once, has a live copy while unsettled, at most 2 + transportResends copies, no version 1 copy after a version 2 first one, and with retry none every copy but the last failed in dial or open |
| SendResends.TimeoutSendsExactly | packages/nox-client/src/client.ts:1282-1299 | a timeout sends a copy on a route if and only if timeouts are resent, the call may be, its route resend is left and that other route is offered |
| SendResends.TransportSendsExactly | packages/nox-client/src/client.ts:1263-1281 | a failed transport does if and only if the caller has not given up, nothing was written or the call may be resent, a resend is left and that route is offered |
| SendResends.FailureSettlesExactly | packages/nox-client/src/client.ts:1260-1299 | such a failure either sends a copy, which takes one resend and leaves the call open, or settles the call exactly when no copy is live |
| SendResends.OtherFailuresReject | packages/nox-client/src/client.ts:1300-1302 | every other failure rejects at once |
| SendResends.FirstAnswerResolves | packages/nox-client/src/client.ts:1232-1246 | the first answer resolves the call with its copy |
| SendResends.LostSendsExactly | packages/nox-client/src/client.ts:1304-1312 | a lost reply sends a copy if and only if policy, phase and resends allow it and another route is offered |
| SendResends.HedgeSendsExactly | packages/nox-client/src/client.ts:1316-1330 | so does the hedge timer, with room for a hedge, away from the first live copy |
| SendResends.ExtraCopiesLeaveTheRest | packages/nox-client/src/client.ts:1304-1330 | neither settles a call or ends a copy; what they send takes the route resend |
| SendResends.BeginsWithOneCopy | packages/nox-client/src/client.ts:1160-1230 | a call begins with one copy and all its resends, and with a timer when the policy hedges |
| SendResends.OthersUnchanged | packages/nox-client/src/client.ts:1160-1338 | no event touches another call |
| SendResends.PlanResendExactly | packages/nox-client/src/client.ts:1355-1387 | which route a resend takes, the fallback included |
| SendResends.PlanTransportExactly | packages/nox-client/src/client.ts:1390-1407 | the same for a transport resend |
| SendResends.SecondCopyAnswers | packages/nox-client/src/client.ts:1232-1302 | a call that times out on one route is sent on the other and resolved by its answer |
| SendClient.Client.Send | packages/nox-client/src/client.ts:1183-1230 | launches the first copy and arms the hedge timer |
| SendClient.Client.OnSuccess | packages/nox-client/src/client.ts:1232-1246 | one step of the run |
| SendClient.Client.OnFailure | packages/nox-client/src/client.ts:1260-1302 | one step of the run, for every failure, phase and plan |
| SendClient.Client.OnLost | packages/nox-client/src/client.ts:1304-1312 | one step of the run |
| SendClient.Client.OnHedgeTimer | packages/nox-client/src/client.ts:1316-1330 | one step of the run |
| ReplyClaims.OpenedIsGood | packages/nox-client/src/reply_claims.ts:430-437 | opening a claim for ids not in flight keeps the books of the entry |
| ReplyClaims.ClosedIsGood | packages/nox-client/src/reply_claims.ts:459-463 | closing one frees its slot and exactly its ids |
| ReplyClaims.ClaimFromIsGood | packages/nox-client/src/reply_claims.ts:294-320 | a pass puts in flight exactly the first wanted ids that fit the free slots, none twice |
| ReplyClaims.BatchesHold | packages/nox-client/src/reply_claims.ts:304-318 | batches hold the wanted ids in order, none empty or too large |
| ReplyClaims.DataFirst | packages/nox-client/src/reply_claims.ts:285-292 | a block is wanted if and only if it is active, not in flight, and near the front or past its deferral |
| ReplyClaims.SortIsSorted | packages/nox-client/src/reply_claims.ts:300-303 | targets are served oldest first |
| ReplyClaims.NobodyStarves | packages/nox-client/src/reply_claims.ts:294-320 | of any n passes with a free slot over n targets, whatever happens in between, one puts an id of each request in flight, if it then wants any |
| ReplyClaims.ClaimFromTurns | packages/nox-client/src/reply_claims.ts:299-303 | a pass with a free slot moves the cursor on by one |
| ReplyFairness.CursorStays | packages/nox-client/src/reply_claims.ts:294-320 | no other step moves it |
| ReplyFairness.NobodyStarvesInRuns | packages/nox-client/src/reply_claims.ts:218-320 | in every run, of any n passes in a row over n targets of an entry, one puts an id of each request in flight, if it then wants any |
| ReplyClaims.QueuedIsGood | packages/nox-client/src/reply_claims.ts:399-409 | queueing acks keeps queued and riding acks within 512 + 128 per slot |
| ReplyClaims.FailureKeepsAcks | packages/nox-client/src/reply_claims.ts:455-463 | a failed claim loses no ack |
| ReplyClaims.SuccessLosesAcks | packages/nox-client/src/reply_claims.ts:430-477 | a successful claim takes away only its own acks, or the oldest of an overfull queue |
| ReplySchedule.SweptReports | packages/nox-client/src/reply_claims.ts:538-553 | a reply is reported lost exactly when its request is pending and suspect for the grace period, and not again |
| ReplyLosses.LossIsReportedOnce | packages/nox-client/src/reply_claims.ts:511-553 | in every run, a request whose claim failed, with no fragment since and still pending, is reported lost exactly once: in the first tick at least the grace period later |
| ReplyLosses.FailureSuspects | packages/nox-client/src/reply_claims.ts:511-526 | a failed claim makes the requests it carried suspect, and no others |
| ReplyLosses.FailureFreesIds | packages/nox-client/src/reply_claims.ts:455-463 | its ids can be claimed again at once |
| ReplyLosses.FragmentClears | packages/nox-client/src/reply_claims.ts:200-206 | a fragment clears the suspicion of its request and may widen its front |
| ReplyLosses.TrackBegins | packages/nox-client/src/reply_claims.ts:175-188 | tracking a request starts it afresh |
| ReplyLosses.TickReports | packages/nox-client/src/reply_claims.ts:538-553 | a tick reports a pending request if and only if it is overdue, and then marks it |
| ReplyLosses.TickDropsSettled | packages/nox-client/src/reply_claims.ts:218-229 | a tick drops every request that is settled |
| ReplyLosses.SuspectWantsAll | packages/nox-client/src/reply_claims.ts:285-292 | every active id of a suspect request that is not in flight is wanted |
| ReplyLosses.FirstBlocks | packages/nox-client/src/reply_claims.ts:334-346 | of a fresh request the first block is wanted, the second too if and only if the entry holds claims in version 2, and no other |
| ReplyLosses.HoldsExactly | packages/nox-client/src/reply_claims.ts:383-397 | a claim is held if and only if claims can be and a slot stays free of held ones, for as long as settings, path and entry allow |
| ReplyLosses.PassKeepsLimits | packages/nox-client/src/reply_claims.ts:294-333 | the claims of a pass have as many ids, and are as many, as the version of the entry allows, and are booked for exactly the requests of their ids |
| ReplyLosses.ReceivedIsAcked | packages/nox-client/src/reply_claims.ts:466-477 | what a claim brought is queued for acknowledgement, at entries of version 2 |
| ReplyLosses.SettledIsAcked | packages/nox-client/src/reply_claims.ts:218-229 | so are the ids of a settled request |
| ReplyLosses.IdleEntryIsAcked | packages/nox-client/src/reply_claims.ts:421-428 | an entry with acks and nobody to claim for gets a claim for the oldest 128 of them if and only if it speaks version 2 and has a slot |
| ReplyLosses.AnswerTeaches | packages/nox-client/src/reply_claims.ts:450-492 | what an answer teaches about version, wait and holding |
| ReplySchedule.StepKeepsGood | packages/nox-client/src/reply_claims.ts:155-477 | every step keeps the invariant of targets and entries |
| ReplySchedule.EveryRunIsExclusive | packages/nox-client/src/reply_claims.ts:285-477 | in every state of every run no id is in two open claims, inFlight is their disjoint union, claims and waiting count them, claims and long polls stay within the larger limit C and max(1, C - 1), and acks within 512 + 128 C |
| ReplySchedule.AckLeaves | packages/nox-client/src/reply_claims.ts:399-477 | an ack leaves the books only in a claim that succeeded or as the oldest of an overfull queue |
| ReplySlots.SlotStaysFreeExactly | packages/nox-client/src/reply_claims.ts:382-397 | one slot stays free of long polls in every state of every run if and only if there are no long polls, or the two limits are equal and at least two |
| ReplySlots.EveryRunKeepsSlot | packages/nox-client/src/reply_claims.ts:382-397 | with such settings, in every state of every run |
| ReplySlots.SlotsFillUp | packages/nox-client/src/reply_claims.ts:382-397 | otherwise a run that fills every slot: with one slot at once, else when an answer lowers the limit |
| ReplySlots.DefaultsFillEverySlot | packages/nox-client/src/reply_claims.ts:44-58 | the defaults do not keep a slot free |
| ReplySchedulerObject.CutBatches | packages/nox-client/src/reply_claims.ts:304-318 | the nested loops compute the batches |
| ReplySchedulerObject.TakeAcks | packages/nox-client/src/reply_claims.ts:411-419 | the first 128 acks |
| ReplySchedulerObject.ReplyClaimScheduler.constructor | packages/nox-client/src/reply_claims.ts:162-169 | starts empty |
| ReplySchedulerObject.ReplyClaimScheduler.Track | packages/nox-client/src/reply_claims.ts:175-188 | one step of the schedule |
| ReplySchedulerObject.ReplyClaimScheduler.NoteFragment | packages/nox-client/src/reply_claims.ts:200-206 | one step of the schedule |
| ReplySchedulerObject.ReplyClaimScheduler.Close | packages/nox-client/src/reply_claims.ts:209-215 | one step of the schedule |
| ReplySchedulerObject.ReplyClaimScheduler.Tick | packages/nox-client/src/reply_claims.ts:218-240 | one step of the schedule over all targets and entries |
| ReplySchedulerObject.ReplyClaimScheduler.OpenClaim | packages/nox-client/src/reply_claims.ts:430-437 | claim up to its await |
| ReplySchedulerObject.ReplyClaimScheduler.ClaimDone | packages/nox-client/src/reply_claims.ts:450-477 | claim after a successful exchange |
| ReplySchedulerObject.ReplyClaimScheduler.ClaimFailed | packages/nox-client/src/reply_claims.ts:455-463 | claim after a failed exchange |
| SurbPoolObject.OneRequestPerId | packages/nox-client/src/surb_pool.ts:27-39 | no id is listed twice, under one request or under two |
| SurbPoolObject.RegistryIsOwned | packages/nox-client/src/surb_pool.ts:27-39 | the registry meets what the scheduler demands of its host |
| SurbPoolObject.SurbPool.Generate | packages/nox-client/src/surb_pool.ts:46-91 | registers the new ids under the request |
| SurbPoolObject.SurbPool.Forget | packages/nox-client/src/surb_pool.ts:94-122 | a used id is forgotten, and nothing else |
| SurbPoolObject.SurbPool.Cleanup | packages/nox-client/src/surb_pool.ts:158-165 | forgets exactly the ids of the request |
| RouteSelection.RouteFits | packages/nox-client/src/topology.ts:682-799 | every returned route has three distinct hops of the right roles and the fixed hops in their places |
| RouteSelection.NeverDeadEnds | packages/nox-client/src/topology.ts:682-799 | for every draw and every avoid set a route is found if and only if one fits, unless the cap refuses the selected exit; without a cap always |
| RouteProbation.PossibleIsSelected | packages/nox-client/src/topology.ts:755-796 | every route of the possible entries, mixes and exits comes out for some draws |
| RouteProbation.SelectedIsPossible | packages/nox-client/src/topology.ts:755-796 | and no other does |
| RouteProbation.HopsArePreferred | packages/nox-client/src/topology.ts:838-864 | with the budget spent, each hop that is not fixed is on probation exactly when its whole group is; mix and exit are avoided nodes exactly when everybody left is |
| RouteProbation.CapHoldsExactly | packages/nox-client/src/topology.ts:755-796 | the hops on probation stay within maxProbation for every draw if and only if every budget that can be spent leaves a group with a settled member |
| RouteProbation.CapBroken | packages/nox-client/src/topology.ts:755-796 | otherwise draws that break the cap |
| RouteProbation.EntryOnProbation | packages/nox-client/src/topology.ts:755-765 | four nodes, no probation allowed and a settled route there: the entry is on probation for every draw |
| RouteProbation.MixOnProbation | packages/nox-client/src/topology.ts:773-780 | four nodes for which the same happens to the mix |

## Left out

- Sphinx packets, reply block cryptography, TLS, keccak, quote hashing and signature recovery: quote hashes are an
  injective function of the quote, signatures a recovered signer.
- The sealing of packets in `_packetsFor`: the model stops at the bytes that are sealed.
- The internals of `httparse`: any function whose verdict on a prefix is stable.
- UTF-8, JSON, regular expressions and Unicode white space: text is bytes, and trimming looks at ASCII only.
- HttpRequests.EncodeRequest: request sizes do not overflow usize, because they are unbounded naturals here.
- ReassemblerObject.Reassembler.Add: reads the clock once per call, because only the order of calls matters.
- PaidExecution.ExecutePaid: reorganisations of the chain and readers that lie are not modelled, because the source trusts its reader; a poll loop whose script of answers runs out gives no result, because the clock decides when it ends.
- PaidExecution.Confirm: reads the clock once where the source computes the deadline from two readings, because the deadline only decides how long to poll.
- PaidExecution.Attempt: takes whatever exit a selection returns, also one used before, which the source excludes; what it states holds for all of them. The wording of details and timings is not modelled.
- SendRuns.EveryRunIsSafe: route selection is an arbitrary answer, the latency tracker only decides when the timer fires, and the avoid list is not kept, because routes are the subject of RouteSelection.
- ReplySchedulerObject.ReplyClaimScheduler.Tick: a lost report does not call back into the scheduler; a request tracked from inside it is first seen by the next tick, as in the source.
- ReplySchedulerObject.ReplyClaimScheduler.Close: the entries stay in the map, because open claims still hold them; nothing else reads them after close.
- Probe backoff, claim timeouts and log events of the scheduler: a probe answers at any time.
- Fetching, WebSocket, standby connections, storage, topology fingerprints and liveness checks, configuration and
  log redaction: plumbing or one-branch checks.
- `padToUniform`, `totalProgress`, the outcome and tunnel reply codecs, `local-answers.ts`, `rpc.ts`, `cover.ts`,
  `seeder.ts`, `fetch-map.ts` and the test bed: they would only add easy members.
