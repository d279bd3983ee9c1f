# node-sls-logger, modelled in Dafny

This project models the core of a Node.js logger that ships records to Aliyun
Log Service (SLS). There are four parts:

- **The LZ4 block compressor** (`vendor/lz4.js`) and the Buffer wrapper around it
  (`src/utils/lz4.ts`). The compressor takes a byte sequence and writes into a
  byte array, as the JavaScript does. It is proved against a reference encoding
  of the LZ4 block format (`Lz4Format`) and a reference decoder (`Lz4Decode`).
  The main proved facts:
  - whatever the compressor writes decodes back to its input;
  - it writes something exactly when its scan meets a match. `Lz4.FindsMatch`
    defines that scan: the hash probes, the `pos + 1` table entries and the
    growing skip step, up to the first match;
  - a scan that meets a match has seen some 4 input bytes repeated within the
    64 KiB window;
  - the output never exceeds `compressBound`;
  - the error cases match the source's two `throw`s.
- **The producer** (`src/slsProducer.ts`). Building the two HTTP requests is
  modelled as values: the header dictionary, and the string signed with
  HMAC-SHA1.
  - Both string builders are proved to sign exactly the service's canonical
    form of the headers they set.
  - The classification of responses is modelled as the outcome of the promise.
  - `send`/`start` are a class, `SlsProducer`. Every log sent is proved to be
    taken off the buffer in order, in chunks of 1 to 512 records. While the
    worker awaits, the request it awaits is the POST for the last chunk taken,
    and when it is posted it is proved signed: every header putLogs sets, and
    `LOG key:sign` over the canonical string of those headers. The worker awaits exactly when putLogs did not throw for the last
    chunk taken. Every chunk whose putLogs throws is dropped.
  - With compression on, the posted body is empty exactly when the
    compressor's scan meets no match (see "## Findings"). Otherwise it is an
    LZ4 block that decodes back to the encoded log group.
- **The logger** (`src/index.ts`). It resolves level names and thresholds and
  assembles the record dictionary from the extra arguments. The class
  `SlsLogger` covers the PENDING / READY / UNAVAILABLE state of the producer,
  queueing while the state is PENDING, and flushing the queue once the metadata
  request settles.
- **The records of `src/types.d.ts`**, as datatypes.

Modules:

| File | Module | Contents |
|---|---|---|
| `common.dfy` | Common | `byte`, `Option`, `Result`, sequence helpers, decimal and hex rendering, ASCII upper-casing |
| `dict.dfy` | Dict | an insertion-ordered dictionary (a JavaScript object with string keys) |
| `types.dfy` | SlsTypes | options, `Log`, `LogGroup`, `LogContent`, JavaScript truthiness of optional values |
| `lz4_format.dfy` | Lz4Format | LZ4 sequences, their byte encoding, what they replay to, size bounds |
| `lz4_decode.dfy` | Lz4Decode, Lz4RoundTrip | a reference block decoder and the proof that it inverts the encoding |
| `lz4.dfy` | Lz4 | `compressBound`, `compress`, `compressBlock` over arrays |
| `lz4_buffer.dfy` | Lz4Buffer | the Buffer wrapper, as written and corrected |
| `sls_request.dfy` | SlsRequest | headers and signed strings of `getLogstore` and `putLogs` |
| `sls_response.dfy` | SlsResponse | parsed JSON values and the settling of a request's promise |
| `producer.dfy` | Producer | chunking, the `putLogs` request for a chunk, the class `SlsProducer` |
| `levels.dfy` | Levels | level constants, name lookup, threshold resolution |
| `records.dfy` | Records | the dictionary `log` builds, and its contents as a log |
| `logger.dfy` | Logger | the class `SlsLogger` and the metadata handshake |

The following calls into code that is not modelled become parameters:

- **Hashing** (`crypto.md5`, HMAC-SHA1, base64) is the `Crypto` record of functions.
- **Protobuf encoding** of a log group is the `encode` function given to the producer.
- **`JSON.parse`** is a `parse` function that returns `None` where it throws.
- **`obj2str`** is a function parameter of `log`. `src/utils/obj2str.ts` is not part of this model.
- **The clocks**: `new Date().toUTCString()` is a `date` string parameter, and `Date.now()` a `nowMs` parameter.

### How a burst of records is uploaded

A burst of records does not go out as one upload. `send` pushes the record
and calls `start` at once. When no worker is running, the first chunk is taken
synchronously, so it holds only that one record. Later records wait in the
buffer while that upload is awaited, and go out in chunks of up to 512.
`Producer.SlsProducer.Send` posts `[log]` when no worker was running.

## Model

| member | source | states |
|---|---|---|
| Common.NatToString | src/slsProducer.ts:87-94 | the decimal text of a number is non-empty, all digits, and starts with 0 only for 0 |
| Common.NatToStringValue | src/slsProducer.ts:87-94 | the decimal text denotes the number: its digits read back give n |
| Common.ToUpperAscii | src/index.ts:44 | upper-casing keeps the length and maps each character |
| Common.ToUpperIdempotent | src/index.ts:44 | upper-casing twice is upper-casing once |
| Common.Hex | src/slsProducer.ts:83 | two lower-case hex digits per byte, high nibble first, each pair denoting its byte |
| Common.FlattenSnoc | src/slsProducer.ts:154-156 | flattening a list of chunks distributes over appending a chunk |
| Dict.Empty | src/index.ts:77 | `{}` is a valid dictionary with no keys |
| Dict.Set | src/index.ts:81 | after `d[k] = v`, reading `k` gives `v` and reading any other key gives what it gave before; a new key goes last in key order, an existing key keeps its place (validity is kept by Dict.SetKeepsValid) |
| Dict.SetKeepsValid | src/index.ts:81 | assignment keeps each key listed exactly once, with a value |
| Lz4Format.LengthBytes | vendor/lz4.js:123-126 | a length written as 255-bytes and then a remainder takes n / 255 + 1 bytes |
| Lz4Format.TokenNibbles | vendor/lz4.js:117-130 | the token's high nibble is the capped literal length and its low nibble the capped match length |
| Lz4Format.EncodeBlockSplit | vendor/lz4.js:48-181 | a block is its sequences followed by the closing literals |
| Lz4Format.CopyMatch | vendor/lz4.js:99-114 | a match copy appends exactly `len` bytes and keeps what was there |
| Lz4Format.Apply | vendor/lz4.js:99-135 | replaying a sequence appends its literals and its match |
| Lz4Format.ExpandFrom | vendor/lz4.js:67-153 | replaying sequences appends exactly the bytes they cover |
| Lz4Format.EncodeSequencesSnoc | vendor/lz4.js:117-150 | encoding one more sequence appends its bytes to the encoding |
| Lz4Format.CoveredSnoc | vendor/lz4.js:152 | one more sequence covers its literals and its match on top |
| Lz4Format.ExpandSnoc | vendor/lz4.js:99-114 | replaying one more sequence is applying it to the replay so far |
| Lz4Format.CopyMatchFromSource | vendor/lz4.js:107-111 | a match that repeats the bytes `offset` back in the input copies the next input bytes |
| Lz4Format.LengthFieldSize | vendor/lz4.js:120-130 | the length field of n takes at most 1 + n / 255 bytes, and at most n |
| Lz4Format.SequenceCost | vendor/lz4.js:117-150 | one sequence takes no more bytes than it covers plus one per 255 literals |
| Lz4Format.LastCost | vendor/lz4.js:161-178 | the closing literals take at most their count, plus one per 255, plus 2 |
| Lz4Format.SequencesCost | vendor/lz4.js:67-153 | the sequences take no more bytes than they cover plus one per 255 |
| Lz4Format.BlockCost | vendor/lz4.js:33-37 | a block of n covered bytes is at most n + n / 255 + 2 bytes long |
| Lz4Decode.ReadLengthBytes | vendor/lz4.js:123-126 | the decoder reads back a length written as 255-bytes and a remainder |
| Lz4Decode.ExtendLengthField | vendor/lz4.js:120-130 | the decoder reads back a nibble and its extension |
| Lz4Decode.SplitLiteralsEncoded | vendor/lz4.js:120-135 | the decoder reads back the literals after their length |
| Lz4Decode.ReadMatchEncoded | vendor/lz4.js:138-150 | the decoder reads back the offset and the match length |
| Lz4Decode.DecodeStepLast | vendor/lz4.js:161-178 | the closing sequence decodes to its literals |
| Lz4Decode.DecodeStepSequence | vendor/lz4.js:117-150 | one encoded sequence decodes to itself, leaving the rest |
| Lz4RoundTrip.DecodeSequences | vendor/lz4.js:48-181 | decoding a block replays its sequences and appends the closing literals |
| Lz4RoundTrip.RoundTrip | vendor/lz4.js:48-181 | a block of sequences that can be replayed decodes to what they replay to, plus the last literals |
| Lz4.CompressBound | vendor/lz4.js:33-37 | the bound is 0 exactly for inputs larger than maxInputSize, and the `\| 0` never wraps |
| Lz4.BoundCoversBlock | vendor/lz4.js:33-37 | every block of n input bytes, plus 14 spare bytes, fits in compressBound(n) |
| Lz4.Hash | vendor/lz4.js:70-73 | the multiplicative hash indexes the 65536-entry table |
| Lz4.Put | vendor/lz4.js:146 | `dst[dpos++] = v` writes one byte and nothing else |
| Lz4.WriteLength | vendor/lz4.js:123-126 | the extension loop writes exactly the 255-bytes and remainder of the length |
| Lz4.WriteLiterals | vendor/lz4.js:133-135 | the literal loop copies `src[anchor..anchor+n]` into place |
| Lz4.EmitLengthField | vendor/lz4.js:120-130 | the length extension is written only for lengths of 15 or more |
| Lz4.EmitToken | vendor/lz4.js:117-130 | the token and the literal-length extension are written in place |
| Lz4.EmitLiterals | vendor/lz4.js:117-135 | the token, the length and the literals are written in place |
| Lz4.EmitOffset | vendor/lz4.js:138-139 | the offset is written as two little-endian bytes |
| Lz4.EmitMatch | vendor/lz4.js:138-150 | the offset and the match-length extension are written in place |
| Lz4.EmitSequence | vendor/lz4.js:117-150 | a whole sequence is written as its encoding and nothing else changes |
| Lz4.EmitLast | vendor/lz4.js:159-178 | the closing sequence is written as its encoding |
| Lz4.ExtendMatch | vendor/lz4.js:107-111 | the extension stops at the limit or at the first differing byte, and everything before repeats |
| Lz4.MatchRepeats | vendor/lz4.js:83-111 | four equal bytes plus the extension form a repeat of the whole match length |
| Lz4.RepeatFromBytes | vendor/lz4.js:83-88 | passing the four byte comparisons of the match test shows 4 input bytes repeated within the window |
| Lz4.ApplyFromSource | vendor/lz4.js:99-114 | a sequence taken from the input extends the replay to the end of its match |
| Lz4.AppendReplays | vendor/lz4.js:99-152 | the sequences so far still replay to the input up to the new anchor |
| Lz4.AppendCost | vendor/lz4.js:117-152 | the bytes written so far stay within anchor + anchor / 255 |
| Lz4.AppendMatch | vendor/lz4.js:96-152 | a found match extends the progress to the end of the match |
| Lz4.LastFits | vendor/lz4.js:57-58 | after any progress, the closing sequence still fits in the bound |
| Lz4.EncodeMatch | vendor/lz4.js:96-152 | the match branch writes one sequence that replays the input from the anchor to the end of the match |
| Lz4.MatchFits | vendor/lz4.js:57-58 | a found sequence fits in the output window |
| Lz4.FinishBlock | vendor/lz4.js:159-180 | the closing sequence is written within the bound |
| Lz4.Word | vendor/lz4.js:70-73 | the little-endian word of 4 bytes fits in 32 bits |
| Lz4.FindsMatchHasRepeat | vendor/lz4.js:67-94 | a scan that meets a match has seen 4 input bytes repeated less than 64 KiB back, before the last 16 bytes |
| Lz4.RunAtStartFindsMatch | vendor/lz4.js:62-94 | five equal leading bytes in an input of 18 bytes or more are matched: the miss at 0 moves the step of 67 / 64 = 1 and fills the slot the probe at 1 hits |
| Lz4.SearchStep | vendor/lz4.js:67-153 | one round stores `pos + 1` under the hash and changes no other slot; it emits one sequence exactly when the probe is a hit (slot set, less than 64 KiB back, same 4 bytes); a miss moves pos by attempts / 64 and counts the attempt, a hit resets the counter to 67 and moves the anchor to the end of the match; the replay invariant is kept and pos grows |
| Lz4.Probe | vendor/lz4.js:70-80 | the reference is the slot's previous content minus 1, and the slot of the hash now holds `pos + 1`, every other slot unchanged |
| Lz4.TakeMatch | vendor/lz4.js:96-152 | a hit emits one sequence, ending past the match and within the limit, which keeps the replay invariant and shows 4 input bytes repeated |
| Lz4.ScanKeepsFindsMatch | vendor/lz4.js:67-94 | one probe keeps "the scan from the start meets a match" equal to "something was emitted, or the rest of the scan meets one" |
| Lz4.Scan | vendor/lz4.js:60-153 | the main loop leaves the anchor before the last 12 bytes, with the sequences emitted replaying the input up to it and written in place; it emits something exactly when the scan from an empty table meets a match |
| Lz4.CompressChecked | vendor/lz4.js:57-180 | past the argument checks: returns 0, writing nothing, exactly when the scan meets no match; otherwise the end of a block in the window that replays to the input and fits the bound |
| Lz4.CompressBlock | vendor/lz4.js:48-181 | fails with "input too large" or "output too small" exactly as the source does; returns 0, writing nothing, exactly when the scan from an empty table meets no match (always so for inputs of 12 bytes or fewer); a nonzero result is the end of a block in the window that replays to the input and fits the bound |
| Lz4.Compress | vendor/lz4.js:39-46 | with a zeroed table and the default indices: 0 exactly when the scan meets no match; a nonzero result is the end of a block that decodes to the input, nothing outside the block changes, and some 4 input bytes repeat within the window |
| Lz4Buffer.LiteralsOnlyRoundTrip | vendor/lz4.js:159-178 | a block made only of the closing literals decodes to the input |
| Lz4Buffer.EmptyBodyDecodesToNothing | src/utils/lz4.ts:9 | an empty body is not a block |
| Lz4Buffer.CompressAsWritten | src/utils/lz4.ts:5-11 | fails exactly for inputs too large; otherwise the body is empty exactly when the scan meets no match, and a non-empty body decodes to the input; inputs of 12 bytes or fewer, and inputs in which no 4 bytes repeat within the window, give an empty body that does not decode to them |
| Lz4Buffer.CompressBuffer | src/utils/lz4.ts:5-11 | fails exactly for inputs too large; otherwise always gives a body that decodes to the input, within the bound |
| SlsRequest.BeforeAfterCommonPrefix | src/slsProducer.ts:94-104 | a common prefix keeps the order of names |
| SlsRequest.LogHeaderNamesSorted | src/slsProducer.ts:94-104 | the `x-log-` headers are exactly the listed ones, and they are listed in order of name |
| SlsRequest.LogHeaderLines | src/slsProducer.ts:94-104 | at most one signed line per listed header |
| SlsRequest.LogHeaderLinesUnrolled | src/slsProducer.ts:94-104 | the `x-log-` lines are those of api version, compress type, hash key, raw size and signature method, in that order |
| SlsRequest.BodyMd5 | src/slsProducer.ts:81-83 | the digest as upper-case hex: no lower-case letter, two characters per digest byte, each pair denoting its byte |
| SlsRequest.GetLogstoreCanonical | src/slsProducer.ts:36-37 | the string getLogstore signs is the canonical form of its headers |
| SlsRequest.GetLogstoreLines | src/slsProducer.ts:36-37 | specified by SlsRequest.GetLogstoreCanonical: the canonical lines of the GET headers |
| SlsRequest.GetLogstoreSignString | src/slsProducer.ts:36-37 | specified by SlsRequest.GetLogstoreCanonical: the canonical string of the GET headers and the resource |
| SlsRequest.GetLogstoreHeader | src/slsProducer.ts:31-35 | specified by SlsRequest.GetLogstoreHeaderValues and SlsRequest.GetLogstoreHeaders |
| SlsRequest.GetLogstoreHeaderValues | src/slsProducer.ts:31-35 | getLogstore sets Date, api version and signature method, and nothing else that is signed |
| SlsRequest.GetLogstoreHeaders | src/slsProducer.ts:31-35 | the GET headers, in the order the object literal assigns them |
| SlsRequest.GetLogstoreRequest | src/slsProducer.ts:28-50 | a GET of `/logstores/<name>` with Date, api version, signature method and `LOG key:sign` of the canonical string |
| SlsRequest.HashKeyLine | src/slsProducer.ts:100-103 | specified by SlsRequest.PutLogsHeaderValues and SlsRequest.PutLogsCanonical: the hash key is signed exactly when it is set as a header, with the same value |
| SlsRequest.PutLogsHeaderLines | src/slsProducer.ts:94-104 | the `x-log-` lines of the POST headers are in the order putLogs appends them |
| SlsRequest.PutLogsHeaders | src/slsProducer.ts:85-103 | the POST headers in assignment order, compress type only when compressing, hash key only when it is truthy |
| SlsRequest.PutLogsHeaderValues | src/slsProducer.ts:85-103 | the value of each signed POST header |
| SlsRequest.PutLogsCanonical | src/slsProducer.ts:94-104 | the string putLogs signs is the canonical form of its headers |
| SlsRequest.PutLogsLines | src/slsProducer.ts:94-104 | specified by SlsRequest.PutLogsCanonical: the canonical lines of the POST headers |
| SlsRequest.PutLogsSignString | src/slsProducer.ts:94-104 | specified by SlsRequest.PutLogsCanonical: the canonical string of the POST headers and the resource |
| SlsRequest.PutLogsHeader | src/slsProducer.ts:85-103 | specified by SlsRequest.PutLogsHeaderValues and SlsRequest.PutLogsHeaders |
| SlsRequest.PutLogsRequest | src/slsProducer.ts:81-117 | a POST to `/logstores/<name>/shards/lb` whose headers are those putLogs sets, in its order, then Authorization; each header has the value putLogs gives it (the body's MD5 in upper-case hex, its length, the date, the raw length); Authorization is `LOG <key>:<sign>` over the sign string, which is the canonical form of the headers and the resource |
| SlsRequest.SignUnsigned | src/slsProducer.ts:104-108 | adding Authorization, computed over the canonical sign string, to the unsigned POST headers gives a signed POST: keys in order with Authorization last, and every other header unchanged |
| SlsRequest.CanonicalPostIsSigned | src/slsProducer.ts:94-108 | a POST signed over the canonical string of the putLogs headers is signed over the string putLogs builds line by line: the two strings coincide |
| SlsResponse.Property | src/slsProducer.ts:61 | reading a property throws exactly on `null`, and finds a value exactly in an object that holds it |
| SlsResponse.Settle | src/slsProducer.ts:59-68 | specified by SlsResponse.SettleCases: rejects on null or a truthy errorCode, fulfils with the data otherwise |
| SlsResponse.ClassifyGet | src/slsProducer.ts:57-68 | specified by SlsResponse.GetRejects and SlsResponse.EmptyBody |
| SlsResponse.ClassifyPut | src/slsProducer.ts:124-139 | specified by SlsResponse.EmptyBody and SlsResponse.PutAgreesWithGet |
| SlsResponse.SettleCases | src/slsProducer.ts:59-68 | a parsed body rejects exactly when it is null or has a truthy errorCode, and otherwise fulfils with itself |
| SlsResponse.GetRejects | src/slsProducer.ts:57-68 | getLogstore rejects exactly on a parse failure, a null body or a reported error |
| SlsResponse.EmptyBody | src/slsProducer.ts:127-131 | on an empty body putLogs fulfils with nothing, while getLogstore rejects |
| SlsResponse.PutAgreesWithGet | src/slsProducer.ts:124-139 | on a non-empty body putLogs settles as getLogstore does |
| Producer.Chunk | src/slsProducer.ts:155 | a chunk is the first min(512, n) records of the buffer |
| Producer.Rest | src/slsProducer.ts:156 | the chunk followed by the rest is the buffer |
| Producer.ChunksOf | src/slsProducer.ts:154-156 | specified by Producer.ChunksFlatten, Producer.ChunkSizes and Producer.FiveHundredThirteen |
| Producer.ChunksFlatten | src/slsProducer.ts:154-156 | the chunks of a buffer, concatenated, are the buffer |
| Producer.ChunkSizes | src/slsProducer.ts:154-156 | every chunk holds 1 to 512 records, all but the last exactly 512, and there are ceil(n / 512) of them |
| Producer.FiveHundredThirteen | src/slsProducer.ts:154-156 | 513 records go out as a chunk of 512 followed by a chunk of 1 |
| Producer.SizeHeaders | src/slsProducer.ts:87-92 | the POST headers carry the body length and the raw length |
| Producer.SlsProducer.constructor | src/slsProducer.ts:24-27 | a new producer has no worker and nothing buffered, posted or sent |
| Producer.SlsProducer.Group | src/slsProducer.ts:158-162 | specified by Producer.SlsProducer.PutLogs: the raw size header and, without compression, the body are the encoding of this group |
| Producer.SlsProducer.PutLogs | src/slsProducer.ts:75-117 | as written: fails exactly when compression is on and the encoded group is too large; otherwise a POST to the shard resource whose headers are those putLogs sets, in its order, with Authorization last; Content-MD5 is the body's digest, Content-Length its length, Date the date, the raw size the encoded group's; compress type only with compression, the hash key only when truthy; Authorization is `LOG <key>:<base64 HMAC-SHA1 of the sign string>`, and the sign string is the canonical form of those headers; the body is the encoded group, or with compression empty exactly when the compressor's scan meets no match and otherwise an LZ4 block that decodes to it |
| Producer.SlsProducer.PutLogsCorrected | src/slsProducer.ts:75-117 | corrected: the same signed POST with the same headers, but with compression the body always decodes back to the encoded group |
| Producer.SlsProducer.Step | src/slsProducer.ts:155-165 | one round of the loop takes the next chunk off the buffer; the worker awaits, with the chunk's request appended to the outbox, exactly when putLogs does not throw, and otherwise the chunk is dropped; the awaited request has the headers putLogs sets, the date, the sizes and the body putLogs builds |
| Producer.SlsProducer.Take | src/slsProducer.ts:155-156 | the chunk is the first min(512, n) records of the buffer, the buffer keeps the rest, and the chunk is recorded as taken, in order |
| Producer.SlsProducer.Post | src/slsProducer.ts:157-165 | the worker awaits exactly when putLogs does not throw for the chunk just taken; then exactly one request is added to the outbox, it is the POST for that chunk, and it is signed: every header putLogs sets with its value, and Authorization `LOG key:sign` over the canonical string of those headers; otherwise the outbox is unchanged |
| Producer.SlsProducer.Await | src/slsProducer.ts:158-162 | awaiting the request putLogs returned: it is appended to the outbox, the worker awaits it, and the invariant ties it to the last chunk taken |
| Producer.SlsProducer.Drain | src/slsProducer.ts:154-167 | the loop takes the buffer's chunks in order until one upload is awaited, or it empties the buffer and clears the worker; every chunk taken was refused by putLogs except the awaited last one |
| Producer.SlsProducer.Start | src/slsProducer.ts:151-169 | corrected: does nothing while a worker runs; otherwise the worker is set exactly while an upload is awaited, and the buffer is empty otherwise |
| Producer.SlsProducer.Send | src/slsProducer.ts:147-150 | the log is added to what was sent; with a worker running it waits in the buffer, otherwise it is taken at once as a chunk of its own, which is awaited exactly when putLogs does not refuse it |
| Producer.SlsProducer.Resume | src/slsProducer.ts:158-167 | after an awaited upload settles, the loop continues with the buffer's chunks in order, awaiting the first one putLogs does not refuse |
| Producer.SlsProducer.StartAsWritten | src/slsProducer.ts:151-169 | as written: the loop takes chunks as Drain does, and the worker is left set even when the loop ended without awaiting |
| Producer.SlsProducer.SendAsWritten | src/slsProducer.ts:147-150 | as written: a send on a producer whose worker is set only appends to the buffer: nothing is taken, the outbox and the awaited state are unchanged |
| Producer.Oversized | src/slsProducer.ts:76-80 | an encoding of exactly maxInputSize bytes, which compression refuses |
| Producer.StrandedRecord | src/slsProducer.ts:151-169 | two sends that the compressor refuses leave the second record buffered with the worker set and nothing awaited |
| Levels.OrElse | src/index.ts:44 | `x \|\| fallback` replaces undefined and 0, and is 0 only when both are falsy; specified for level names by Levels.LevelOfCases and Levels.AllResolvesToInfo |
| Levels.LevelOf | src/index.ts:44 | specified by Levels.LevelOfCases, Levels.LevelOfIgnoresCase and Levels.AllResolvesToInfo |
| Levels.LevelOfCases | src/index.ts:16-25 | a listed name other than ALL resolves to its level, ALL and unlisted names resolve to INFO, and every name resolves to a listed level other than 0 |
| Levels.LevelOfIgnoresCase | src/index.ts:72 | a name and its upper-case form resolve alike |
| Levels.AllResolvesToInfo | src/index.ts:44 | "ALL" in any case resolves to INFO |
| Levels.ResolveThreshold | src/index.ts:43-49 | a name or no option gives one of the table's levels other than ALL, so only a number can set the threshold to 0; see Levels.LevelOfCases and Levels.ThresholdAllByNumberAndName |
| Levels.ThresholdAllByNumberAndName | src/index.ts:43-49 | the numeric threshold 0 lets everything through, the name "ALL" does not |
| Levels.Normalize | src/index.ts:70-75 | a level name keeps its spelling and gets one of the table's levels other than ALL; a level record is used as is; what passes is stated by Levels.PassesByName |
| Levels.Passes | src/index.ts:76 | specified by Levels.PassesByName: equal levels pass, lower ones are dropped |
| Levels.PassesByName | src/index.ts:76 | a call by name passes exactly when the name's level reaches the threshold |
| Records.FieldKeys | src/index.ts:79-85 | a key is among the field keys exactly when some SlsField extra has it |
| Records.MessageText | src/index.ts:78 | the message argument, or the result of calling it; used by Records.BuildRecord through Logger.SlsLogger.Log |
| Records.Fields | src/index.ts:79-85 | specified by Records.FieldsSpec and Records.FieldsKeysGrow |
| Records.Appended | src/index.ts:83 | specified by Records.OnlyFieldsKeepMessage and the loop invariant of Records.BuildRecord |
| Records.Record | src/index.ts:77-87 | specified by Records.RecordValues, Records.RecordKeys and Records.RecordContentsEnd |
| Records.LastValue | src/index.ts:81 | the value found is one the extras assign to the key, and none is found only when no extra assigns it |
| Records.FieldsSpec | src/index.ts:79-85 | the field dictionary is valid, has exactly the field keys, and holds the last value assigned to each |
| Records.FieldsKeysGrow | src/index.ts:79-85 | later fields only add keys after those already there |
| Records.RecordValues | src/index.ts:86-87 | level and message override fields of those names; every other key holds its last field value |
| Records.RecordKeys | src/index.ts:86-87 | the keys are the field keys, then level and message unless a field already placed them |
| Records.OnlyFieldsKeepMessage | src/index.ts:83 | without extras other than fields, the message is unchanged |
| Records.BuildRecord | src/index.ts:77-87 | the loop builds the record dictionary |
| Records.Contents | src/index.ts:102 | one content per key, in key order, each with the key's value |
| Records.RecordContentsEnd | src/index.ts:86-102 | without fields named level or message, the contents end with level and then message |
| Logger.HandshakeReady | src/index.ts:51-63 | the state becomes READY exactly when the response is an object whose logstoreName is the logstore |
| Logger.GetLogstoreSettles | src/index.ts:51-63 | every outcome getLogstore can settle with sets the state |
| Logger.HandshakeState | src/index.ts:51-63 | specified by Logger.HandshakeReady and Logger.GetLogstoreSettles |
| Logger.QueuedLogs | src/index.ts:64-68 | specified by Logger.QueuedLogsSpec |
| Logger.QueuedLogsSpec | src/index.ts:64-68 | the flush sends one log per queued record, in queue order, stamped with the same second |
| Logger.MetadataRequest | src/index.ts:51 | the constructor's request is the signed GET of the logstore: the headers getLogstore sets with their values, and Authorization `LOG key:sign` over the canonical string |
| Logger.SlsLogger.constructor | src/index.ts:42-51 | a new logger is PENDING with an empty queue, the resolved threshold, a fresh producer, and the signed GET of the logstore as its metadata request |
| Logger.SlsLogger.Raw | src/index.ts:97-113 | PENDING queues the record, READY sends its contents stamped with the second, UNAVAILABLE sends nothing |
| Logger.SlsLogger.Log | src/index.ts:69-89 | records below the threshold change nothing; others are queued or sent as the record dictionary |
| Logger.SlsLogger.Handshake | src/index.ts:51-68 | a settled handshake sets the state and flushes the queue; a throwing handler leaves everything as it was |
| Logger.SlsLogger.Flush | src/index.ts:64-68 | every queued record goes through `raw` in order, then the queue is empty |

## Left out

- HTTPS transport, the keep-alive agent and the streaming of response bodies
  are not modelled. A request is the value it is built from. A response is its
  complete body, handed to the classification.
- Console output (`console.error`, `console.warn`, `console.log`) is not
  modelled. The UNAVAILABLE branch of `raw` only prints, so in the model it
  changes nothing.
- Hashing, base64, protobuf encoding, `JSON.parse` and `obj2str` are function
  parameters, as listed above. `src/utils/obj2str.ts` and the `sls.proto`
  schema are not part of this model.
- The clocks are parameters:
  - `Date.now()` is read once for a whole flush, where the source reads it
    once per record.
  - A whole drain of the producer's buffer gets one `date` string.
- Promise scheduling is modelled by the points where a continuation runs:
  - `Producer.SlsProducer.Resume` is the loop going on after an awaited upload.
  - `Logger.SlsLogger.Handshake` is the two continuations of the metadata
    request.
  - `Handshake` is modelled as running only while the state is PENDING.
  - Interleavings of several in-flight promises are not modelled.
- `Math.imul` is modelled as multiplication modulo 2^32, as it behaves on
  these operands. The fallback definition for engines without it is left out.
- The `tags` option is never read by the core and is not modelled.
- The `disabled` option is never read by the core and is not modelled.
- Dict.Set: assigning the key `"__proto__"` on a plain JavaScript object
  calls the `Object.prototype` setter, which ignores a string value, so
  `Object.keys` never lists that key. The model treats `"__proto__"` as an
  ordinary key, so a field or extra named `"__proto__"` appears in
  `Records.Fields` and `Records.Contents` where the source would drop it.
- `Object.keys` lists integer-like keys first, in numeric order. The
  dictionary model keeps plain insertion order for every key.
- JSON numbers are modelled as reals, with no NaN or rounding.
- Upper-casing is ASCII only. Unicode case mappings that change the length or
  reach ASCII (such as `ß` or `ı`) are not modelled.
- The `level` option and a level record's `level` are integers. Fractional
  levels are left out.
- `trace` … `fatal` are `log` with a fixed name. They are covered by
  `Logger.SlsLogger.Log` with `ByName`; no separate member models them.
- `SlsField` and `createField` are the `Field` case of `Records.Extra`. The
  `instanceof` test is that case split.
- Logger.SlsLogger: the logger is composed with the corrected producer.
  `Logger.SlsLogger.Raw` calls `Producer.SlsProducer.Send`, which keeps the
  worker set exactly while an upload is awaited. The code's `start` can
  leave the worker set with nothing awaited, as `Producer.StrandedRecord`
  shows. The logger's contracts do not cover that state, in which every
  later record only waits in the buffer.
- Producer.SlsProducer: the invariant ties the records sent to the chunks
  taken off the buffer, in order. Of the requests issued, only the one being
  awaited is tied to its chunk. Earlier entries of `outbox` are not related
  to their chunks.
- Producer.SlsProducer.Posted: the awaited-request invariant carries the
  header order, Date, the sizes and the body of the request, but not its
  Content-MD5, its Authorization header or its sign string. `PutLogs` states
  them for the request it builds, and `Post` for the request it awaits
  (`SlsRequest.CanonicalPost`); the class invariant, and so `Step`, `Drain`
  and `Start`, do not repeat them, to keep the loop's proofs small.
- Producer.SlsProducer: the loop runs on `PutLogs` as written. The corrected
  `PutLogsCorrected` is stated on its own and is not used by the loop.
- `Records.Contents`: where a listed key has no value, it falls back to the
  empty string. This never happens for the dictionaries `log` builds, which
  are valid.
- `Lz4.Compress`: `sIdx` and `eIdx` are naturals, with 0 standing for an
  argument left out. Negative or non-integer indices are not modelled.
- `Lz4.CompressBlock`: the `pos` parameter is left out because `compress`
  always passes 0. The hash table must start zeroed, which is what `compress`
  supplies.

## Findings

| source | as written | input that shows it | evidently intended | confidence | as-written member | corrected member |
|---|---|---|---|---|---|---|
| src/utils/lz4.ts:8-9 | `compress` returns 0 when it finds nothing to compress (vendor/lz4.js:157), and the wrapper then slices the output to an empty Buffer | compression on, and an encoded log group of 12 bytes or fewer, or one in which no 4 bytes repeat within 64 KiB; putLogs then posts an empty body, with Content-Length 0 and `x-log-compresstype: lz4`, which decodes to nothing | a body that decodes back to the input, such as a literals-only block | not executed | Lz4Buffer.CompressAsWritten, Lz4Buffer.EmptyBodyDecodesToNothing, Producer.SlsProducer.PutLogs | Lz4Buffer.CompressBuffer, Producer.SlsProducer.PutLogsCorrected |
| src/slsProducer.ts:151-169 | `this.worker = undefined` at the end of the async loop runs before the assignment `this.worker = (async …)()` when the loop never awaits, because every chunk threw synchronously in putLogs. The worker is then left set for good, and every later send only buffers | compression on, and a record whose encoded group is maxInputSize bytes ("input too large") | the worker is cleared whenever the loop has finished | not executed | Producer.SlsProducer.StartAsWritten, Producer.SlsProducer.SendAsWritten, Producer.StrandedRecord | Producer.SlsProducer.Start, Producer.SlsProducer.Send |
