# cloud-client-go codec, modelled in Dafny

cloud-client-go is a Go client for a speech cloud service. It opens one TCP (or TLS)
connection and sends an HTTP/1.1 POST with a chunked body. Each chunk holds one
`multipart/form-data` segment: a boundary delimiter line, parameter lines, a blank line
and the payload. A closing delimiter chunk and the zero-size chunk end the body. The
service answers with a chunked response in the same format.

This project models the codec of that client:

- **Sending** (`Sending`, `Framing`, `Transport`). SendHeaders, SendMultiPart,
  SendMultiPartEnd, sendChunk, sendChunkEnd and checkConnection exist in both client
  packages (`http_v2_client/` and `client/`), letter for letter. They are modelled once.
  - `Framing` gives the exact bytes each method writes, as functions of its arguments.
  - `Transport.Conn` is the connection. Its `Write` may fail at any point after sending a
    prefix of its data.
  - Every send method writes its frame one piece at a time and stops at the first failed
    write. Its contract gives the whole frame on success and a prefix of the frame on
    failure.
- **The stream decoder** of `http_v2_client/` (`Decoding`, `StreamClient`).
  - `Decoding` is the byte loop of handleResponse as a pure function of a state and one
    byte. That state is the CR/LF flags, the response status, the header buffer, the open
    chunk and the queue of received chunks.
  - `StreamClient.Result` is the Go `result` record as a class. Its handler methods
    update its fields in place and are proved to compute exactly those functions, byte by
    byte, batch by batch and over a whole response.
  - The lemmas in `Decoding` describe what the loop does:
    - the CR/LF automaton;
    - the header, chunk-size, sub-header and body states;
    - the length accounting;
    - the effect of the per-batch flag reset;
    - the decoding of a frame that SendMultiPart wrote.
- **The line-based receiver** of `client/` (`LineClient`). These are ReceiveChunk,
  readFromConn, removeCRLF and IsBlankLine.
  - ReceiveChunk's loop is a terminating function over revBuf and the fragments that
    later reads of the connection return.
  - The `Client.ReceiveChunk` method runs that loop imperatively and is proved equal to
    it.
- **The sample application's pieces of the codec.**
  - `Receiver`: handleBoundaryAndParameters of `receiver.go`.
  - `AppConfig`: Config.GetBoundary of `config.go`. It is a class whose boundary and
    headers the method updates.

The modelling conventions are these:

- **Bytes.** Bytes are Dafny `char`s and byte slices are `string`s.
- **Integers.** Go's `int64` arithmetic is modelled where it can wrap: the
  ReceiveChunk counters use `Wrap64`. `strconv.ParseInt(s, 16, 64)` is modelled exactly:
  sign, syntax error giving 0, range error giving the clamped bound. `fmt.Sprintf("%x", n)`
  is `Strconv.FormatHex`.
- **Where the code differs from the documented protocol behaviour, the model follows
  the code.** The differences:
  - **The decoder queues only the zero chunk.** A chunk that reaches its declared length
    is dropped, not sent on receivedChunk. Only the zero-size terminator is queued
    (`Decoding.OnlyTerminatorIsQueued`, `Decoding.ChunkCompletes`).
  - **The flags reset per batch.** The CR/LF flags are reset at the start of every batch
    drained from revBuf. A blank line split across two batches is missed
    (`Decoding.BlankLineSplitAcrossBatches`). A cut after any other byte is harmless
    (`Decoding.DrainAllFlatten`).
  - **"\n\n" is not a blank line.** Two LFs without a CR never end a header
    (`Decoding.NoDoubleCRLFWithoutCR`).
  - **The chunk's trailing CR lands in the body.** The payload's leading CRLF is not
    counted against the chunk length, so the frame's trailing CR ends up in the chunk body
    (`Decoding.SegmentDecodes`).
  - **ReceiveChunk keeps line ends in CHUNK data.** Its CHUNK data starts with the LF of
    the size line and ends with the CR of the frame's last CRLF
    (`LineClient.ChunkFrameReceived`).
  - **A partial header line is lost.** When revBuf runs out inside a header line,
    ReceiveChunk returns HEADERS without that partial line, and the line is lost
    (`LineClient.HeaderCutShort`).
  - **The request line doubles the slashes.** It is `POST /<path>/ HTTP/1.1`. With the
    default path `/NmspServlet/` of the `client/` package this gives `//NmspServlet//`
    (`Framing.RequestLine`).
  - **A bare boundary prefix gives no boundary.** A header that is exactly
    `Content-Type: multipart/form-data; boundary=` makes GetBoundary return an empty
    boundary.

## Model

| member | source | states |
|---|---|---|
| Strconv.FormatHex | http_v2_client/http_v2_client.go:164 | the size line is non-empty lower-case hex with no leading zero, and "0" for an empty payload |
| Strconv.FormatHexValue | http_v2_client/http_v2_client.go:164 | the hex digits written for a length denote exactly that length |
| Strconv.ParseInt | http_v2_client/http_v2_client.go:338 | the parsed size is always within the int64 range, and a syntax error yields 0 |
| Strconv.ParseDigits | http_v2_client/http_v2_client.go:338 | the base-16 digit loop of strconv: digits read from the left, a non-digit is a syntax error and the first digit past 2^64-1 a range error |
| Strconv.ParseUint | http_v2_client/http_v2_client.go:338 | the unsigned base-16, 64-bit parse: an empty string is a syntax error, anything else goes through the digit loop |
| Strconv.ParseDigitsValue | http_v2_client/http_v2_client.go:338 | on hex digits only, the result is the digits' value, or a range error exactly when that value exceeds 2^64-1 |
| Strconv.ParseIntDigits | http_v2_client/http_v2_client.go:338 | a non-empty run of hex digits reads as its value, or as the largest int64 with an error exactly when it does not fit |
| Strconv.ParseIntSyntaxError | client/http_v2_client.go:192 | a size line with a non-hex character, reached before any overflow, reads as 0 whatever follows |
| Strconv.ParseDigitsPrefixFailure | http_v2_client/http_v2_client.go:338 | once a prefix of the digits has failed, nothing after it changes the outcome |
| Strconv.HexRoundTrip | http_v2_client/http_v2_client.go:164 | a length the sender writes in hex is read back by the decoder as the same length, without error |
| Framing.LineBlockPrefix | http_v2_client/http_v2_client.go:118-122 | the header lines written up to any header are a prefix of the whole header block |
| Framing.RequestLine | http_v2_client/http_v2_client.go:115 | the request line SendHeaders writes first: POST, the path between two slashes, HTTP/1.1 and CRLF |
| Framing.LineBlock | http_v2_client/http_v2_client.go:118-121 | the header lines (and, in SendMultiPart, the parameter lines) each followed by CRLF, in their order |
| Framing.RequestHead | http_v2_client/http_v2_client.go:110-125 | everything SendHeaders writes: request line, header lines, then the blank line |
| Framing.MultiPartPayload | http_v2_client/http_v2_client.go:132-146 | the segment SendMultiPart assembles: CRLF, the delimiter line, the parameter lines, a blank line and the body |
| Framing.MultiPartEndPayload | http_v2_client/http_v2_client.go:156 | the closing delimiter segment: CRLF, "--", the boundary, "--", CRLF |
| Framing.ChunkFrame | http_v2_client/http_v2_client.go:162-176 | the chunk sendChunk writes: the payload length in hex, CRLF, the payload, CRLF |
| Framing.ChunkFrameParts | http_v2_client/http_v2_client.go:162-176 | a chunk frame splits back into the size line (its first CR ends it, and it reads as the payload length), CRLF, the payload and CRLF |
| Framing.MultiPartEndLength | http_v2_client/http_v2_client.go:156 | the closing delimiter segment is 8 bytes longer than the boundary |
| Framing.LineBlockLength | http_v2_client/http_v2_client.go:137-141 | a block of lines is as long as the lines together plus a CRLF for each |
| Framing.MultiPartPayloadLength | http_v2_client/http_v2_client.go:127-150 | the length a segment announces counts its leading CRLF, delimiter line, parameter lines, blank line and body |
| Transport.Conn.Write | http_v2_client/http_v2_client.go:164-175 | a write sends all of its bytes when it succeeds, and some prefix of them when it fails; nothing incoming changes |
| Transport.Conn.Read | http_v2_client/http_v2_client.go:270-284 | a read returns the next fragment from the peer, or nothing once there are none, and sends nothing |
| Transport.AppendedAll | http_v2_client/http_v2_client.go:162-176 | a write that sends all its data leaves a valid prefix of that data on the wire |
| Transport.AppendedStep | http_v2_client/http_v2_client.go:162-176 | after whole pieces of a frame, a partial write of the next piece still leaves a prefix of the frame |
| Sending.Sender.CheckConnection | http_v2_client/http_v2_client.go:183-188 | an error exactly when the connection has not been established |
| Sending.Sender.SendHeaders | http_v2_client/http_v2_client.go:110-125 | without a connection: an error and no write; otherwise the wire gets the request line, every header line and the blank line on success, and a prefix of them when a write fails |
| Sending.Sender.SendMultiPart | http_v2_client/http_v2_client.go:127-150 | without a connection: an error; otherwise the segment (CRLF, delimiter, parameter lines, blank line, body) goes out as one chunk frame, or a prefix of it on failure |
| Sending.Sender.SendMultiPartEnd | http_v2_client/http_v2_client.go:152-160 | without a connection: an error; otherwise the closing delimiter chunk then the zero chunk, or a prefix of the two on failure |
| Sending.Sender.SendChunk | http_v2_client/http_v2_client.go:162-176 | the hex length, CRLF, the payload and CRLF, in that order, or a prefix of them when a write fails |
| Sending.Sender.SendChunkEnd | http_v2_client/http_v2_client.go:178-181 | the zero-size chunk "0\r\n\r\n", or a prefix of it when the write fails |
| Sending.PrefixAfter | http_v2_client/http_v2_client.go:110-125 | a prefix of a piece stays a prefix once it is surrounded by what comes before and after it |
| Sending.HeaderWriteFailed | http_v2_client/http_v2_client.go:118-122 | a header line write that fails part-way leaves a prefix of the whole request head |
| Sending.AppendedWeaken | http_v2_client/http_v2_client.go:156-159 | a prefix of the delimiter chunk is a prefix of delimiter chunk plus terminator |
| Decoding.NewChunk | http_v2_client/http_v2_client.go:62-69 | a new chunk has empty buffers, no size and nothing counted |
| Decoding.HandleCRLF | http_v2_client/http_v2_client.go:302-316 | a CR sets getCR; an LF sets doubleCRLF when a CR and an LF were both seen, else getLF; any other byte clears all three flags |
| Decoding.ResetCRLF | http_v2_client/http_v2_client.go:296-300 | the flags are cleared and nothing else changes |
| Decoding.HandleHeader | http_v2_client/http_v2_client.go:318-326 | a header byte is stored, unless a blank line has just been completed, in which case the size line comes next |
| Decoding.HandleChunkLen | http_v2_client/http_v2_client.go:328-348 | size bytes are collected until a line end; line ends before any digit are skipped; at the line end the size is parsed as hex, and size 0 queues the chunk and stops the loop |
| Decoding.ShouldHandleNext | http_v2_client/http_v2_client.go:286-294 | a chunk whose count has reached its declared length is dropped and the next size line awaited |
| Decoding.HandleBoundaryParameters | http_v2_client/http_v2_client.go:350-359 | sub-header bytes are stored and counted from the first '-' on; a completed blank line after that starts the body; then the length check |
| Decoding.HandleChunkBody | http_v2_client/http_v2_client.go:361-366 | a body byte is stored and counted, then the length check |
| Decoding.Step | http_v2_client/http_v2_client.go:229-245 | one iteration of the byte loop: the flags advance first, then the handler of the current status; false when the loop returns |
| Decoding.Run | http_v2_client/http_v2_client.go:229-245 | the byte loop over a batch from left to right, stopping at the first byte whose handler returns false |
| Decoding.Drain | http_v2_client/http_v2_client.go:226-245 | one drained batch: the flag reset, then the byte loop |
| Decoding.DrainAll | http_v2_client/http_v2_client.go:223-247 | handleResponse over successive batches, each drained with its reset, until the loop returns |
| Decoding.WellFormed | http_v2_client/http_v2_client.go:328-366 | the states the handlers keep: no chunk in the header state, an unsized chunk in the size state, an open chunk with intact length accounting in the sub-header and body states |
| Decoding.Safe | http_v2_client/http_v2_client.go:350-366 | a chunk is open whenever the sub-header or body handler dereferences handlingChunk |
| Decoding.StepWellFormed | http_v2_client/http_v2_client.go:229-245 | each byte takes a well-formed decoder state to a well-formed one; the loop stops only in the chunk-size state with no chunk open |
| Decoding.StepSafe | http_v2_client/http_v2_client.go:350-366 | as long as the loop goes on, a chunk is open whenever a sub-header or body byte is handled (the pointer is never nil where it is dereferenced) |
| Decoding.StepFlags | http_v2_client/http_v2_client.go:229-245 | every byte passes through handleCRLF and no handler touches the flags |
| Decoding.ScanForgetsBeforeOther | http_v2_client/http_v2_client.go:302-316 | a byte other than CR or LF clears all three flags, whatever came before |
| Decoding.ScanLineEnds | http_v2_client/http_v2_client.go:302-316 | over CRs and LFs from clear flags: getCR iff a CR was seen, getLF iff an LF was, doubleCRLF iff some LF followed both a CR and an LF |
| Decoding.ClosesBlankLineExtend | http_v2_client/http_v2_client.go:302-316 | one more CR or LF adds a blank-line close exactly when it is an LF after both a CR and an LF |
| Decoding.DoubleCRLFAtFourthByte | http_v2_client/http_v2_client.go:302-316 | after other text, "\r\n\r\n" sets doubleCRLF at its fourth byte and at no earlier one |
| Decoding.NoDoubleCRLFWithoutCR | http_v2_client/http_v2_client.go:302-316 | without a CR, no run of bytes ("\n\n" included) sets doubleCRLF |
| Decoding.RunWellFormed | http_v2_client/http_v2_client.go:229-245 | well-formedness holds after any batch the loop goes on through |
| Decoding.DrainAllWellFormed | http_v2_client/http_v2_client.go:217-249 | well-formedness holds across a whole response for as long as decoding goes on |
| Decoding.RunFlags | http_v2_client/http_v2_client.go:302-316 | the flags after a batch depend on its bytes only, whatever states the decoder passes through |
| Decoding.RunAppend | http_v2_client/http_v2_client.go:229-245 | decoding a + b is decoding a, then b from there unless decoding stopped within a |
| Decoding.OnlyTerminatorIsQueued | http_v2_client/http_v2_client.go:328-366 | while decoding goes on the queue is unchanged; when it stops exactly one chunk has been queued, and its length is 0 |
| Decoding.HeadersOnlyGrow | http_v2_client/http_v2_client.go:318-326 | the header buffer only grows, and once the header has ended it and the status stay out of the header state |
| Decoding.HeaderStores | http_v2_client/http_v2_client.go:318-326 | in the header state every byte is stored until the blank line is complete |
| Decoding.HeaderEnds | http_v2_client/http_v2_client.go:318-326 | the byte that completes the blank line is not stored and moves the decoder to the chunk-size line |
| Decoding.HeaderText | http_v2_client/http_v2_client.go:318-326 | text without CR or LF is stored in the headers and leaves the flags clear |
| Decoding.HeaderLine | http_v2_client/http_v2_client.go:318-326 | a header line and its CRLF are stored whole |
| Decoding.HeaderBlock | http_v2_client/http_v2_client.go:318-326 | a header block and its blank line: every line and its CRLF are stored, then the blank line's CR; its LF is not, and the size line comes next |
| Decoding.SizeDigits | http_v2_client/http_v2_client.go:328-335 | bytes that are not CR or LF accumulate in LenByte |
| Decoding.EmptySizeLinesSkipped | http_v2_client/http_v2_client.go:328-337 | line ends before any size digit are skipped and nothing is collected |
| Decoding.SizeLineEnds | http_v2_client/http_v2_client.go:336-347 | the line end after the size digits parses them as hex (a malformed line reads as 0); size 0 queues the chunk and stops, any other size opens its sub-header |
| Decoding.ZeroSizeStops | http_v2_client/http_v2_client.go:336-347 | a size line that reads as 0 stops decoding with that chunk queued, whatever bytes follow it |
| Decoding.ChunkEndStops | http_v2_client/http_v2_client.go:336-347 | the terminator sendChunkEnd writes stops the decoder with one zero-length chunk queued, whatever follows |
| Decoding.SubHeaderSkips | http_v2_client/http_v2_client.go:350-359 | before the first '-' of the sub-header nothing is stored or counted |
| Decoding.SubHeaderText | http_v2_client/http_v2_client.go:350-359 | from the first '-' on, every sub-header byte is stored and counted |
| Decoding.SubHeaderLineEnd | http_v2_client/http_v2_client.go:350-359 | a CRLF inside the sub-header that does not close a blank line is stored and counted like text |
| Decoding.SubHeaderBlankLine | http_v2_client/http_v2_client.go:350-359 | the CRLF that closes the sub-header's blank line is stored with it and starts the body |
| Decoding.SubHeaderLine | http_v2_client/http_v2_client.go:350-359 | a parameter line and its CRLF are stored and counted whole |
| Decoding.SubHeaderLines | http_v2_client/http_v2_client.go:350-359 | a block of parameter lines is stored and counted whole, in order |
| Decoding.BodyBytes | http_v2_client/http_v2_client.go:361-366 | every body byte is stored and counted while the declared length is not reached |
| Decoding.ChunkCompletes | http_v2_client/http_v2_client.go:286-294 | the byte that brings the count to the declared length drops the chunk without queueing it and awaits the next size line |
| Decoding.SegmentDecodes | http_v2_client/http_v2_client.go:328-366 | a frame that SendMultiPart wrote, decoded from the size state: just before its last byte the open chunk holds the declared length, the sub-header and the body followed by CR; the last byte drops the chunk, nothing is queued, the headers are unchanged |
| Decoding.DrainAllFlatten | http_v2_client/http_v2_client.go:223-246 | when every cut between batches follows a byte other than CR or LF, decoding batch by batch (each with its flag reset) equals decoding their concatenation |
| Decoding.DrainJoin | http_v2_client/http_v2_client.go:226 | after a batch ending in other text the flag reset before the next batch changes nothing |
| Decoding.BlankLineSplitAcrossBatches | http_v2_client/http_v2_client.go:226 | a header and its blank line split right after a CRLF never leave the header state, while the same bytes in one batch do |
| StreamClient.Result.constructor | http_v2_client/http_v2_client.go:71-90 | a new client receives from the header state with empty buffers, no open chunk and an empty queue |
| StreamClient.Result.ResetCRLF | http_v2_client/http_v2_client.go:296-300 | clears the three flags and nothing else |
| StreamClient.Result.HandleCRLF | http_v2_client/http_v2_client.go:302-316 | the flags advance by one byte as the automaton says, and nothing else changes |
| StreamClient.Result.HandleHeader | http_v2_client/http_v2_client.go:318-326 | the in-place handler computes the header step of the decoder |
| StreamClient.Result.HandleChunkLen | http_v2_client/http_v2_client.go:328-348 | the in-place handler computes the size-line step, including its stop answer |
| StreamClient.Result.ShouldHandleNext | http_v2_client/http_v2_client.go:286-294 | the in-place check drops a chunk that reached its length |
| StreamClient.Result.HandleBoundaryParameters | http_v2_client/http_v2_client.go:350-359 | the in-place handler computes the sub-header step |
| StreamClient.Result.HandleChunkBody | http_v2_client/http_v2_client.go:361-366 | the in-place handler computes the body step |
| StreamClient.Result.HandleByte | http_v2_client/http_v2_client.go:229-245 | one iteration of the byte loop is one decoder step, and keeps the pointer safe to dereference |
| StreamClient.Result.HandleBatch | http_v2_client/http_v2_client.go:229-245 | the byte loop over one batch computes the decoder run over it, stopping where the run stops |
| StreamClient.Result.HandleResponse | http_v2_client/http_v2_client.go:217-249 | the drain loop over the batches computes the decoder over the whole response, with the reset before each batch; it ends exactly when a size line reads as 0 (the terminator, or a malformed or zero-valued size line) |
| StreamClient.DrainAllStops | http_v2_client/http_v2_client.go:236-238 | once decoding has stopped, later batches are not looked at |
| StreamClient.RunStep | http_v2_client/http_v2_client.go:229-245 | the byte at index i is decoded from the state the bytes before it left |
| LineClient.StripLineEnds | client/http_v2_client.go:232-241 | no CR or LF remains and the line gets no longer |
| LineClient.RemoveCRLF | client/http_v2_client.go:232-241 | the byte loop keeps exactly the bytes other than CR and LF, in order |
| LineClient.StripLineEndsAppend | client/http_v2_client.go:232-241 | removing line ends works piece by piece over a concatenation |
| LineClient.StripLineEndsByte | client/http_v2_client.go:232-241 | a CR or LF is dropped and any other byte kept |
| LineClient.StripLineEndsKeeps | client/http_v2_client.go:232-241 | a line without CR or LF is left unchanged |
| LineClient.StripLineEndsIdempotent | client/http_v2_client.go:232-241 | removing line ends twice is removing them once |
| LineClient.StripLineEndsLength | client/http_v2_client.go:232-241 | exactly the CR and LF bytes are removed: kept length plus line-end count is the original length |
| LineClient.IsBlankLine | client/http_v2_client.go:243-254 | true exactly for "\r", "\n", "\n\r" and "\r\n" |
| LineClient.ReadBytes | client/http_v2_client.go:168 | the line cut off and the rest make up revBuf; at EOF nothing is left, otherwise the line is non-empty |
| LineClient.ReadBytesFirstCR | client/http_v2_client.go:168 | EOF exactly when revBuf holds no CR; otherwise the line ends at the first CR |
| LineClient.ReadBytesLine | client/http_v2_client.go:168 | a buffer that starts with a line ending in its only CR gives back exactly that line |
| LineClient.Wrap64 | client/http_v2_client.go:214-215 | an int64 sum stays within the int64 range and equals the exact sum when that fits |
| LineClient.NextRead | client/http_v2_client.go:225-230 | a read that returns bytes consumes one fragment of the connection |
| LineClient.FeedLine | client/http_v2_client.go:168-182 | a pass that goes on has consumed a fragment or part of revBuf |
| LineClient.TakeLine | client/http_v2_client.go:185-219 | handling a line never puts back input: it consumes a fragment or leaves revBuf and the connection as they were |
| LineClient.SizeLine | client/http_v2_client.go:185-197 | a first line that is not a status line is read as the hex chunk size, without its CR and LF; one character that reads as 0 returns END |
| LineClient.HeaderLine | client/http_v2_client.go:200-205 | a header line is collected; the blank line returns HEADERS with the lines collected before it |
| LineClient.BodyLine | client/http_v2_client.go:206-219 | a chunk line that goes on consumes a fragment or leaves the input as it was |
| LineClient.BodyLineCounts | client/http_v2_client.go:206-219 | a chunk line is counted with int64 wrap-around and collected; CHUNK once the count reaches the size plus 2 |
| LineClient.Iterate | client/http_v2_client.go:167-220 | every pass that goes round again consumes a fragment of the connection or a line of revBuf |
| LineClient.Receive | client/http_v2_client.go:167-222 | the loop of ReceiveChunk, pass after pass, until a pass returns a message |
| LineClient.ReceiveChunkFrom | client/http_v2_client.go:159-223 | a whole ReceiveChunk call: one readFromConn, then the loop from the initial local variables |
| LineClient.Client.constructor | client/http_v2_client.go:39-54 | a new client starts with an empty revBuf |
| LineClient.Client.ReadFromConn | client/http_v2_client.go:225-230 | one read of the connection is appended to revBuf and its length returned |
| LineClient.Client.ReadLine | client/http_v2_client.go:168-182 | the imperative start of a pass computes the line cut and the EOF handling |
| LineClient.Client.HandleLine | client/http_v2_client.go:185-219 | the imperative rest of a pass computes the line's effect on the local variables |
| LineClient.Client.ReceiveChunk | client/http_v2_client.go:159-223 | the message returned and what is left in revBuf and on the connection are those of the line loop; nothing is written |
| LineClient.SizeZeroEnds | client/http_v2_client.go:185-195 | a first line of one character that reads as hex 0 returns END and leaves the rest in revBuf |
| LineClient.ChunkEndEnds | client/http_v2_client.go:185-195 | the terminator sendChunkEnd writes reads back as END |
| LineClient.ReceiveAgain | client/http_v2_client.go:167-220 | a pass that goes round again continues the loop from its new variables |
| LineClient.ReceiveDone | client/http_v2_client.go:167-220 | a pass that returns decides the outcome |
| LineClient.ReceivePass | client/http_v2_client.go:167-220 | the loop unfolds one pass at a time |
| LineClient.HeaderPass | client/http_v2_client.go:200-205 | in the header, a pass over a complete line handles that line |
| LineClient.BodyPass | client/http_v2_client.go:206-219 | in a chunk, a pass over a complete line counts that line |
| LineClient.HeaderLines | client/http_v2_client.go:200-205 | header lines are collected up to the blank line, which is not; HEADERS is returned and what follows stays in revBuf |
| LineClient.HeaderLineKept | client/http_v2_client.go:200-205 | a header line that is not blank is collected and the loop goes on |
| LineClient.HeaderBlankLine | client/http_v2_client.go:200-202 | the blank line returns HEADERS with what was collected before it |
| LineClient.StatusLineOpensHeader | client/http_v2_client.go:185-205 | a response header (status line, header lines, blank line) comes back as HEADERS holding the status and header lines |
| LineClient.StatusPass | client/http_v2_client.go:185-189 | the HTTP/1.1 status line switches to the header, where it is the first line collected |
| LineClient.HeaderCutShort | client/http_v2_client.go:168-173 | when revBuf has no CR in the header, HEADERS is returned with the complete lines only and the partial line is gone from revBuf |
| LineClient.ChunkLines | client/http_v2_client.go:206-219 | in a chunk, lines are collected until their lengths reach the size plus 2, and the bytes up to that CR come back as CHUNK |
| LineClient.BodyLineKept | client/http_v2_client.go:206-219 | a chunk line that leaves the count short is collected and the loop goes on |
| LineClient.BodyLineLast | client/http_v2_client.go:214-217 | the line that brings the count to the size plus 2 returns CHUNK |
| LineClient.SizeLineOpens | client/http_v2_client.go:185-197 | a first line that is neither a status line nor the terminator opens a chunk of the size it reads as |
| LineClient.ChunkFrameReceived | client/http_v2_client.go:159-223 | what sendChunk writes comes back as one CHUNK: the payload between the size line's LF and the final CR, with the last LF left in revBuf |
| Receiver.HandleBoundaryAndParameters | receiver.go:72-85 | the parameters are the CRLF-separated pieces that are not empty once CRs are trimmed, in order; the part is audio exactly when none names the JSON content type |
| Receiver.Kept | receiver.go:76-83 | the pieces that are not empty once their CRs are trimmed, in their order |
| Receiver.Parameters | receiver.go:73-83 | the kept pieces of the sub-header split at every CRLF |
| Receiver.MentionsJson | receiver.go:79-81 | some parameter contains the JSON content type marker |
| Receiver.KeptAppend | receiver.go:76-83 | pieces are kept one by one and in order |
| Receiver.KeptMember | receiver.go:77 | a piece is kept exactly when it holds something other than CRs |
| Receiver.KeptAll | receiver.go:77 | pieces that all hold something other than CRs are all kept |
| Receiver.MentionsJsonAppend | receiver.go:79-81 | one more parameter names JSON exactly when it does or an earlier one did |
| Receiver.EmptyBufferIsAudio | receiver.go:72-85 | an empty sub-header has no parameters and is taken for audio |
| Receiver.SplitPiece | receiver.go:73 | a piece without CR is cut at the CRLF after it |
| Receiver.LineBlockFront | http_v2_client/http_v2_client.go:137-141 | a block of lines is its first line and CRLF followed by the block of the others |
| Receiver.SplitLineBlock | receiver.go:73 | splitting a block of proper lines at CRLF gives back those lines |
| Receiver.SplitNext | receiver.go:73 | a line without CR and its CRLF give one piece ahead of the pieces of what follows |
| Receiver.SubHeaderParameters | receiver.go:72-85 | the sub-header of a segment that SendMultiPart framed gives back the delimiter line followed by the parameters, in order |
| Receiver.JsonPartDetected | receiver.go:72-85 | such a part counts as JSON exactly when one of the parameters sent names the JSON type |
| AppConfig.FirstBoundaryHeader | config.go:31-36 | the first header with the boundary prefix, and none exactly when no header has it |
| AppConfig.Resolve | config.go:27-40 | the boundary and headers GetBoundary leaves: a cached boundary kept, else the text after the prefix in the first boundary header, else the default boundary with a header announcing it appended |
| AppConfig.Config.constructor | config.go:42-55 | a configuration starts with the given headers and no cached boundary |
| AppConfig.Config.GetBoundary | config.go:27-40 | returns the boundary it leaves cached; the new boundary and headers are the resolution of the old ones |
| AppConfig.ResolveCases | config.go:27-40 | a cached boundary is kept as it is; otherwise the first boundary header gives the text after the prefix, headers unchanged; otherwise the default boundary, with one header announcing it appended |
| AppConfig.ResolveIdempotent | config.go:27-40 | calling GetBoundary again changes nothing and returns the same boundary |
| AppConfig.ResolveAnnounces | config.go:27-40 | after GetBoundary on an empty cache, the first boundary header is the prefix followed by the boundary returned |

## Left out

- Connect, Close, dialing, TLS and deadlines are not modelled. A connection is either
  absent (`null`) or an already-connected `Transport.Conn`.
- Receive, listenPort, readFromTcpConn's goroutine, the channels, `context`
  cancellation and the sleeps are not modelled. Concurrency is replaced by the sequence of
  batches that handleResponse drains. The batches are inputs.
- The read buffer sizes (1024 bytes in readFromTcpConn, 10000 in readFromConn) are not
  modelled. Each read returns one fragment of the peer's stream, given as input.
- The receivedChunk channel's capacity and blocking are not modelled. The queue is a
  sequence.
- Logging is not part of this model: the ConsoleLogger calls and util/logger.go.
- These files are not part of this model:
  - ReadConfig and its JSON decoding, and the Config fields other than Headers and the
    boundary (config.go);
  - main.go and sender.go;
  - the rest of receiver.go (Receive, createFile);
  - the option files.
- The sender code in client/http_v2_client.go:71-149 is identical to
  http_v2_client/http_v2_client.go:110-188. It is modelled once, in `Sending`.
- SendMultiPart: the errors of the bytes.Buffer writes it builds the segment with cannot
  happen, so they are not modelled.
- LineClient.Client.ReceiveChunk: the non-EOF error branch of ReadBytes is not modelled,
  because bytes.Buffer only ever reports io.EOF there.
- StreamClient.Result.ShouldHandleNext: its boolean answer is ignored by both callers and
  is not modelled.
- The `*Chunk` handlingChunk pointer is modelled as a value (`Decoding.ChunkRef`).
  - It is never shared with anything else while open.
  - When the zero chunk is sent on the channel, the pointer is dropped in the same
    assignment either way.
- Decoding.HandleBoundaryParameters: the receivedLen and Len counters of Chunk are
  unbounded integers. A chunk would need 2^63 bytes to wrap them.
- Transport.Conn.Write: which writes fail is a nondeterministic choice, not a model of
  network errors.
