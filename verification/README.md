# Verified models of linen's stateful foreign interfaces

This Dafny project models the parts of the linen library where state, partial progress
and concurrency meet, and proves what they promise:

- **RecvBuffers, Readers, Channels, RequestHeads** — the buffered socket reader and `sendall` of
  `ffi/network.c`. A socket is a script of the answers `recv` will give: chunks of any
  size, EAGAINs, other errors, and then end of file. `Flat` is what is left of a script
  when the chunking and the transient EAGAINs are forgotten. Both readers are proved to
  behave as simple readers of that flat stream, past errors too, so nothing a program
  can do tells two chunkings apart; no byte is lost or invented; and a message sent with
  partial sends is read back whole. `RequestHeads` is the reader of a request head that
  the web server builds on them.
- **ZlibCodec, ZlibDrive, ZlibHandles, ZlibRuns, ZlibStored** — the streaming handles of
  `ffi/zlib.c`. zlib itself is a parameter: any functions that keep the contract in
  `Lawful` (`ZlibStored` exhibits some that do). The drive loops, the growing output
  buffer, the `initialized`/`finished` flags and the 32-bit input length are modelled as
  written. Inflating is proved independent of the chunking and inverse to deflating.
- **TlsSession, TlsTranscripts, TlsOperations** — the session protocol of `ffi/tls.c`: any number of
  threads interleave their steps on one SSL object under its mutex. OpenSSL's answers are
  arbitrary. Invariants of every reachable state give mutual exclusion, progress, the
  plaintext as the concatenation of the successful writes, and the life cycle of the SSL
  object; `TlsTranscripts` says, on the log of SSL calls alone, which calls each operation
  must have made and what it must have answered. `TlsOperations` has the operations in the imperative form of the source, each
  proved to be a run of the interleaving, so that the invariants hold of a session after
  any sequence of them.
- **Base64, Base64Url** — the base64url functions of `ffi/jose.c`, which rewrite an array
  around the standard codec (RFC 4648 sections 4 and 5): both round trips, with the exact
  sets of strings that decode and that are encoded back to themselves; the alphabets as
  tables, and bytes and sextets as the digits of one number.
- **RequestText, RequestReader, RequestRendering, RequestFraming** — `readRequest` of
  `Examples/Req.lean`: a function of the bytes alone, and the inverse of rendering a
  request; and what it makes of any head, with or without a length.
- **Timers, PoolSplit** — the deadline timer of `Examples/Bench.lean` as an interleaving,
  with the exact condition under which a sleeper can still be woken, and its split of
  connections among workers, with its optimality.
- **Closures** — who owns the Lean closures registered as SQL functions in
  `ffi/sqlite3_shim.c`.

Where the code and its documentation disagree, the code is modelled:

- `Linen/Crypto/Zlib/FFI.lean:31-33` says that a `z_stream` is freed exactly once. A feed
  that meets the end of the stream sets `finished`, and then neither finish nor the
  finalizer calls `inflateEnd`. `Inflater.Finalize` and `Decompress` state exactly when
  the stream is released, and `WholeStreamLeaks` gives an input for which it is not.
- `feed` passes its length through a 32-bit cast, so of a chunk of 4 GiB or more only the
  length modulo 2^32 is seen. `LosesNothingIff` and `RoundTrip` say exactly when nothing
  is lost, and `FourGiBAreDropped` gives the input.
- `finish` is documented to flush buffered output; on the inflate side there never is any,
  and a truncated stream is not an error (`Inflater.FinishStream`, `Decompress`).
- `Timer.sleepGreen` of `Examples/Bench.lean` is to suspend its caller for a time. A
  shutdown can make that for ever: whatever waits when the driver stops is never resolved.
  `ResolvableIff` says exactly which waiting promises still can be resolved, in every
  reachable state, and `ShutdownStrands` gives a reachable state with one that cannot.

## Model

| member | source | states |
|---|---|---|
| RecvBuffers.Socket.Recv | ffi/network.c:193-199 | one `recv`: at most the space offered, of the next chunk; the flat stream is what was delivered and then what is left |
| RecvBuffers.Socket.RecvPatiently | ffi/network.c:192-203 | the retries of a refill come to the next bytes, to the end exactly when the stream is over, or to the next error of the flat stream |
| RecvBuffers.RecvBuffer.constructor | ffi/network.c:209-216 | a new buffer is empty: everything is still in the socket |
| RecvBuffers.RecvBuffer.Compact | ffi/network.c:181-189 | moving the unread bytes to the front changes none of them |
| RecvBuffers.RecvBuffer.Fill | ffi/network.c:179-204 | what is pending stays the same; 0 exactly at the end of the stream or when the buffer is full, so with room for a byte a 0 is a true end of file; -1 exactly consumes one error of the flat stream, transient EAGAINs not counted |
| RecvBuffers.RecvBuffer.Scan | ffi/network.c:228-240 | the inner loop stops at the first CR LF wherever the two bytes were split, or at 8192 bytes without one, having used up exactly the bytes it looked at |
| RecvBuffers.RecvBuffer.ReadLine | ffi/network.c:222-251 | result and remaining stream are those of the simple line reader on the flat stream; both nested loops terminate |
| RecvBuffers.RecvBuffer.DrainTo | ffi/network.c:263-269 | the copied bytes are the next unread ones, in order |
| RecvBuffers.RecvBuffer.ReadN | ffi/network.c:256-281 | result and remaining stream are those of taking `n` bytes off the flat stream |
| Readers.LineMeans | ffi/network.c:230-235 | a line comes back exactly when it and its CRLF fit in 8192 bytes, or when fewer than 8192 bytes without a CRLF end the stream |
| Readers.TooLongMeans | ffi/network.c:236-240 | "line too long" exactly when 8192 bytes come before any error and none of their prefixes ends in CRLF |
| Readers.FailedMeans | ffi/network.c:241-242 | a receive error surfaces exactly when it comes within 8192 bytes and before any CRLF |
| Readers.LineLimit | ffi/network.c:225-240 | a line of up to 8190 bytes and its CR (13) and LF (10) is read, and a longer one is too long after 8192 bytes |
| Readers.TakeMeans | ffi/network.c:256-281 | `n` bytes come back exactly when they are there, fewer exactly at the end, and an error exactly when it comes before that |
| Readers.Run | ffi/network.c:222-281 | any sequence of reads gives the replies of the simple readers over the flat stream, beyond errors too |
| Readers.RunOn | ffi/network.c:209-281 | the same from a fresh buffer, as a function of the socket's behaviour |
| Readers.ChunkingIsInvisible | ffi/network.c:179-281 | two sockets with the same flat stream give the same replies to any calls, those of the simple readers |
| Readers.FlatOfTransient | ffi/network.c:192-203 | the flat stream is the payload and then end of file exactly when there is no hard errno and never four EAGAINs in a row |
| Readers.ErrorsArePlaced | ffi/network.c:192-203 | an errno, and four EAGAINs in a row, are an error right after the bytes before them; three EAGAINs leave no trace |
| Readers.ReplayConserves | ffi/network.c:222-281 | over any calls and errors, the stream's bytes are those delivered, with their CRLFs, or discarded by failing calls, in order, and then the rest |
| Readers.RunConserves | ffi/network.c:152-281 | in every reachable state the bytes received are those accounted for and then exactly those in `buf[pos..len)` |
| Channels.Wire.Send | ffi/network.c:606-612 | one `send`: a prefix of what is left is accepted, or none |
| Channels.SendAll | ffi/network.c:600-616 | success has sent all of the data once and in order; failure a proper prefix, at the first refusing answer and with its kind of error |
| Channels.SendMessage | ffi/network.c:600-616 | the lines, the empty line and the body reach the wire as rendered; after a failure, a prefix of that |
| Channels.RenderedIsRead | ffi/network.c:222-281 | the simple readers invert the rendering of lines of up to 8190 bytes and a body, whatever follows |
| Channels.ReceiveMessage | ffi/network.c:222-281 | repeated `readline` up to an empty line, and one `readn`, give the lines and the body of the flat stream |
| Channels.Exchange | ffi/network.c:222-281 | end to end: for every pattern of partial sends and every way `deliver` to cut what was accepted into chunks and EAGAINs, what is read is what was sent, and in any case what the accepted bytes alone determine |
| RequestHeads.ReceiveHead | Linen/Network/WebApp/Server/Request.lean:235-248 | request line, header lines and what is left unread are a function of the flat stream; a `readline` that throws ends it |
| RequestHeads.FieldsAreRead | Linen/Network/WebApp/Server/Request.lean:238-247 | the header loop gives all the header lines exactly when there are fewer than it may read, and otherwise leaves the rest unread |
| RequestHeads.HeadIsRead | Linen/Network/WebApp/Server/Request.lean:229-248 | a rendered head is read back exactly when it has no more header lines than allowed, and rejected, not truncated, with more; an empty request line does not end it |
| RequestHeads.HundredHeaders | Linen/Network/WebApp/Server/Request.lean:46 | 100 header lines are read, and with 101 the request is rejected |
| RequestHeads.HeadThrows | Linen/Network/WebApp/Server/Request.lean:235-241 | when a `readline` of the head fails, the whole request throws and is not merely rejected |
| RequestHeads.LostInTheHead | Linen/Network/WebApp/Server/Request.lean:235-241 | a receive error anywhere in the head is such a failure |
| ZlibCodec.ZStream.Inflate | ffi/zlib.c:84 | one `inflate` call as zlib documents it: input used, output written, and what each return code means |
| ZlibCodec.ZStream.Deflate | ffi/zlib.c:322 | one `deflate` call likewise |
| ZlibCodec.ZStream.Release | ffi/zlib.c:246-249 | the stream is ended at most once, and no call follows |
| ZlibStored.StoredIsLawful | ffi/zlib.c:62-69 | the contract assumed of zlib can be met |
| ZlibDrive.NewCapacity | ffi/zlib.c:89-90 | the first doubling is the last whenever it is enough |
| ZlibDrive.OutBuf.Grow | ffi/zlib.c:88-98 | one doubling always is enough; the contents survive; capacity stays 16384 times a power of two |
| ZlibDrive.OutBuf.Append | ffi/zlib.c:87-101 | the chunk is appended; capacity is at most max(16384, 2 * length), and so are the bytes ever copied by realloc |
| ZlibDrive.DriveInflate | ffi/zlib.c:70-126 | it terminates; a normal return has the end of the stream, or all input used and nothing pending; an error means the input is no stream |
| ZlibDrive.DriveDeflate | ffi/zlib.c:308-357 | it terminates; all input is taken in, and under Z_FINISH the stream is ended and decompresses to all the input |
| ZlibHandles.Inflater.Feed | ffi/zlib.c:169-211 | the output is what the bytes fed so far decompress to beyond those fed before; errors exactly when they are no stream; nothing after the end |
| ZlibHandles.Inflater.FinishStream | ffi/zlib.c:222-266 | nothing is ever left to flush; an error only after a failed feed |
| ZlibHandles.Inflater.Finalize | ffi/zlib.c:34-42 | the stream is released exactly when no feed met its end |
| ZlibHandles.Deflater.Feed | ffi/zlib.c:405-447 | everything seen of the input is taken in and all output is handed over |
| ZlibHandles.Deflater.FinishStream | ffi/zlib.c:459-503 | the outputs together are a whole stream that decompresses to all that was fed |
| ZlibHandles.Deflater.Finalize | ffi/zlib.c:283-291 | a deflate stream is always released |
| ZlibRuns.LosesNothingIff | ffi/zlib.c:184 | the 32-bit length loses no input exactly when every chunk is below 4 GiB |
| ZlibRuns.FourGiBAreDropped | ffi/zlib.c:184 | a chunk of 4 GiB is not seen at all |
| ZlibRuns.FeedsGive | ffi/zlib.c:79-211 | after any feeds the concatenated outputs are what all the input decompresses to, and the phase is its status |
| ZlibRuns.ChunkingIsInvisible | ffi/zlib.c:79-266 | two ways to cut the same bytes give the same output, errors and phase |
| ZlibRuns.InflateAll | ffi/zlib.c:135-266 | a whole run of the handle gives those results and says whether the stream was released |
| ZlibRuns.InflateAfterFinish | ffi/zlib.c:169-266 | finish is an error exactly when a feed was; feeds and a finish after it are no error and give no bytes |
| ZlibRuns.DeflateAll | ffi/zlib.c:366-503 | a whole run gives a whole stream for all that was seen of the chunks |
| ZlibRuns.RoundTrip | ffi/zlib.c:70-503 | for every way `cut` to cut the compressed bytes, deflating in any chunks and inflating those gives back what was seen of the input, and so all of it exactly when no chunk has 4 GiB; the inflating stream is never released |
| ZlibRuns.Decompress | Linen/Crypto/Zlib/FFI.lean:70-74 | errors exactly when the input is no stream, truncated input included in success; released exactly when the input is not a whole stream |
| ZlibRuns.WholeStreamLeaks | Linen/Crypto/Zlib/FFI.lean:31-33 | an input after which the stream has not been freed |
| TlsSession.BeginKeeps | ffi/tls.c:443-528 | no SSL call begins on a freed object, and no shutdown on a failed session |
| TlsSession.ReturnKeeps | ffi/tls.c:427-433 | the plaintext grows by exactly what the call accepted |
| TlsSession.InspectKeeps | ffi/tls.c:391-434 | `failed` is set exactly by fatal outcomes and the pointer is cleared exactly when the object was freed |
| TlsSession.FinalizeKeeps | ffi/tls.c:80-87 | the finalizer frees what close did not, once |
| TlsSession.StepKeeps | ffi/tls.c:51-65 | every step of every thread keeps the invariant |
| TlsSession.MutualExclusion | ffi/tls.c:51-65 | at most one thread is between taking and releasing the lock, and none that has its answer, WANT included, holds it |
| TlsSession.SomeoneCanStep | ffi/tls.c:51-65 | while some thread holds or wants the lock, one of them can step |
| TlsSession.PlaintextIsTheWrites | ffi/tls.c:408-437 | plaintext is, in lock order, the whole buffer of each successful write once and nothing of one to be retried; only a failed blocking write leaves a proper prefix |
| TlsSession.AnswersFit | ffi/tls.c:536-604 | in every run each answer is the one the documented outcome encoding gives the last SSL call, if there was one (`TlsTranscripts.EveryOperationActed` says when there was) |
| TlsSession.Lifecycle | ffi/tls.c:443-463 | no call follows SSL_free, which happens at most once; no shutdown follows a fatal outcome; `failed` holds exactly when there was one |
| TlsSession.NothingIsUndone | ffi/tls.c:41-49 | `failed`, the closing and the records only grow |
| TlsTranscripts.EveryOperationActed | ffi/tls.c:372-604 | in every run each finished operation has made, in one stretch of the log, exactly the SSL calls it owed the session as it found it, open or closed, failed or not; its answer and plaintext are what their outcomes say |
| TlsTranscripts.NoCallIff | ffi/tls.c:379-427 | an operation has made no SSL call exactly when it had nothing to do or took the lock after an SSL_free |
| TlsTranscripts.PlaintextIsLogged | ffi/tls.c:427-433 | the plaintext is what the SSL_write calls in the log took |
| TlsOperations.SectionRuns | ffi/tls.c:51-65 | what a thread does under the lock is a run of the interleaving, wherever the other threads are |
| TlsOperations.OperationRuns | ffi/tls.c:51-65 | so is a whole operation, lock and unlock included, of any thread whenever the lock is free |
| TlsOperations.OperationKeeps | ffi/tls.c:51-65 | an operation takes a session that an interleaving reaches to another one |
| TlsOperations.OperationActs | ffi/tls.c:372-604 | on the log alone: an operation makes the calls it owes, with OpenSSL's outcomes, and answers, fails the session and hands over plaintext as they say |
| TlsOperations.RestIsSafe | ffi/tls.c:372-463 | between operations the plaintext is what they handed over, each answer fits, SSL_free is last, no shutdown follows a fatal outcome, and `failed` is exact |
| TlsOperations.Session.Call | ffi/tls.c:389-390 | one SSL call is one step |
| TlsOperations.Session.Read | ffi/tls.c:372-402 | the blocking read is the thread's stretch of steps; on an open session and for a positive length it is one SSL_read of at most 0x7FFF_FFFF bytes, whose bytes it returns |
| TlsOperations.Session.Write | ffi/tls.c:408-437 | so is the blocking write, which hands over the data piece by piece; success means all of it, and exactly a failure on an open session fails the session |
| TlsOperations.Session.Close | ffi/tls.c:443-463 | so is close: it asks whether the handshake is done unless the session failed, shuts down exactly when it is, and then frees |
| TlsOperations.Session.HandshakeNb | ffi/tls.c:521-534 | so is a handshake step: one SSL call, and what it makes of each outcome |
| TlsOperations.Session.ReadNb | ffi/tls.c:545-573 | so is a non-blocking read: one SSL call, and what it makes of each outcome |
| TlsOperations.Session.WriteNb | ffi/tls.c:583-604 | so is a non-blocking write: one SSL call with all of the data, and what it makes of each outcome |
| TlsOperations.Session.Inform | ffi/tls.c:614-650 | so is a getter |
| TlsOperations.Session.Finalize | ffi/tls.c:80-87 | the finalizer is the step of the interleaving that frees what close left |
| TlsOperations.Session.Do | ffi/tls.c:372-650 | whichever operation is called, the new session is that operation of the old one |
| TlsOperations.Serve | ffi/tls.c:372-650 | any sequence of operations makes of a new session what the operations, one after the other, determine, each recorded with its answer |
| TlsOperations.Life | ffi/tls.c:41-87 | over any operations and then the finalizer: plaintext is what they handed over in order, one SSL_free comes last, no shutdown follows a fatal outcome, and `failed` says whether there was one |
| Base64.SplitIsTheSameGroup | ffi/jose.c:754 | three bytes and their four sextets are the same 24-bit number |
| Base64.TestVectors | ffi/jose.c:754 | the encoder gives the vectors of RFC 4648 section 10 |
| Base64.LetterIsInTable | ffi/jose.c:754 | the letters are the entries of the tables of RFC 4648 sections 4 and 5 |
| Base64.LettersAreTheTable | ffi/jose.c:698-720 | the characters of the table and no others are letters |
| Base64.EncodedByTable | ffi/jose.c:754 | each character of an encoding is the table's entry at its sextet, and what completes the last group is '=' |
| Base64.SextetsAreTheNumber | ffi/jose.c:754 | the sextets are, in base 64, the number that the bytes are in base 256, with zero bits behind it |
| Base64.BytesAreTheNumber | ffi/jose.c:698-720 | and the bytes are the number of the sextets without the unused bits |
| Base64.SextetsBack | ffi/jose.c:736-777 | decoding the sextets of any bytes gives the bytes |
| Base64.BytesBack | ffi/jose.c:649-725 | encoding what sextets decode to gives the sextets exactly when no unused bit is set |
| Base64Url.EvpEncodeBlock | ffi/jose.c:754 | the standard encoding and a NUL are written to the array |
| Base64Url.EvpDecode | ffi/jose.c:698-720 | the standard decoding is written within three bytes for four characters, or -1 |
| Base64Url.UrlEncode | ffi/jose.c:736-777 | the array loops give the letters in the URL alphabet: exactly the padding is stripped, and every write is within `b64_max` |
| Base64Url.Translate | ffi/jose.c:761-765 | the loop puts the characters into the URL alphabet |
| Base64Url.Restore | ffi/jose.c:660-681 | the translated input and exactly the missing padding, every write within `padded_len + 1` |
| Base64Url.UrlDecode | ffi/jose.c:649-725 | the result is the standard decoding of that, within `max_out` |
| Base64Url.EncodedLength | ffi/jose.c:747-771 | ceil(4n/3) characters, out of 4 * ceil(n/3) |
| Base64Url.DecodeInvertsEncode | ffi/jose.c:649-777 | decode(encode(x)) = x for every byte string |
| Base64Url.EncodeInvertsDecode | ffi/jose.c:649-777 | for every string that decodes, encode(decode(s)) = s exactly when s is in the URL alphabet, its length is not 1 modulo 4 and its unused bits are zero |
| Base64Url.CanonicalIsKept | ffi/jose.c:649-777 | every URL-alphabet string of length not 1 modulo 4 with zero unused bits decodes, and is encoded back to itself |
| Base64Url.UrlEncodedByTable | ffi/jose.c:736-777 | character `i` is the entry of the URL table at sextet `i` |
| Base64Url.DecodedByTable | ffi/jose.c:649-725 | a string of entries of either table, padded or not, decodes to the bytes of their sextets, unless its length or padding is wrong |
| Base64Url.NotInTables | ffi/jose.c:668-675 | only the characters of the two tables are letters |
| Base64Url.DecodesIff | ffi/jose.c:660-681 | exactly which strings decode |
| Base64Url.TextAndPadding | ffi/jose.c:649-652 | every string is of the form that `DecodesIff` decides |
| RequestReader.Connection.Recv | Examples/Req.lean:37 | one `recv`: the next chunk, no bytes at the end, or an exception |
| RequestReader.GatherHead | Examples/Req.lean:34-43 | what is buffered ends at the first chunk that completes a blank line, or at the end of the stream |
| RequestReader.ParseHead | Examples/Req.lean:44-57 | method, path and length are those of the text before the first blank line, and the body starts right behind it |
| RequestReader.GatherBody | Examples/Req.lean:57-62 | chunks are gathered until there are enough bytes, or the end |
| RequestReader.ReadRequest | Examples/Req.lean:33-63 | method, path and body are a function of the stream alone: the body is the first Content-Length bytes behind the first blank line, fewer only at the end |
| RequestText.FindInPrefix | Examples/Req.lean:42 | a blank line found in what has arrived is the first of the whole stream |
| RequestText.ToNatInvertsDecimal | Examples/Req.lean:54 | reading a number inverts printing it |
| RequestText.ZerosAreRead | Examples/Req.lean:54 | leading zeros do not count |
| RequestText.Underscores | Examples/Req.lean:54 | an underscore between digits is passed over, and elsewhere it makes no number |
| RequestText.TrimIs | Examples/Req.lean:54 | spaces on either side are trimmed off and nothing else |
| RequestRendering.SplitJoined | Examples/Req.lean:47-51 | splitting a head at CRLF gives its lines back |
| RequestRendering.FindBlank | Examples/Req.lean:45 | there is no blank line before the end of a rendered head |
| RequestRendering.HeadIsRead | Examples/Req.lean:47-56 | the head of a rendered request is read as its method, path and length |
| RequestRendering.RenderedIsParsed | Examples/Req.lean:44-63 | reading inverts rendering with a correct Content-Length, whatever follows |
| RequestFraming.LengthIsRead | Examples/Req.lean:52-54 | "content-length:" in any letter case, with any spaces around the number and zeros before it, gives that number |
| RequestFraming.SilentGivesNone | Examples/Req.lean:50-56 | a line that does not begin so, or whose value is no number, gives none |
| RequestFraming.NoLengthNoBody | Examples/Req.lean:50-63 | a request without a length has no body, whatever follows its head or goes wrong behind it |
| RequestFraming.LengthIsObeyed | Examples/Req.lean:44-63 | the first length line counts, wherever it stands and however it is written: so many bytes are the body, fewer only at the end, and an exception before that is raised |
| RequestFraming.AnyHeadIsParsed | Examples/Req.lean:44-63 | method and path are the first two words of any request line, and the body is framed by the first length |
| RequestFraming.OneWordAsksForRoot | Examples/Req.lean:47-49 | a request line of one word asks for "/" |
| RequestFraming.CutShort | Examples/Req.lean:34-46 | a stream without a blank line raises its exception, or else has no body |
| RequestRendering.RoundTrip | Examples/Req.lean:33-63 | the same for the reader itself, for every chunking |
| RequestRendering.ChunkingIsInvisible | Examples/Req.lean:33-63 | the same bytes in other chunks are read alike, as the bytes alone determine |
| Timers.PartitionSplits | Examples/Bench.lean:54 | splitting the array loses no promise and puts each on its side |
| Timers.StepKeeps | Examples/Bench.lean:48-75 | every step of sleepers, driver, clock and shutdown keeps the invariant |
| Timers.ExactlyOnePlace | Examples/Bench.lean:48-75 | in every reachable state each promise is in exactly one of: being registered, pending, due, resolved |
| Timers.NeverEarly | Examples/Bench.lean:71-75 | no promise is resolved before its sleeper has slept its time |
| Timers.SleepsItsTime | Examples/Bench.lean:71-75 | in every run, whoever goes to sleep for `ms` at some time of the clock is resolved no earlier than `ms` after that |
| Timers.WokenInItsTime | Examples/Bench.lean:50-57 | and of what is in the array when the driver takes, it is due exactly when the driver woke at that time or later |
| Timers.DueByTheClock | Examples/Bench.lean:50-57 | a tick that begins now makes due exactly what is in the array with its time past |
| Timers.NeverTwice | Examples/Bench.lean:57 | no promise is resolved twice |
| Timers.TickResolvesAllDue | Examples/Bench.lean:50-57 | a tick leaves none pending whose deadline has come, takes no other, and all it took are resolved when it is over |
| Timers.ResolvableIff | Examples/Bench.lean:48-75 | in every reachable state, a waiting promise can still be resolved exactly when the timer runs, or the driver has yet to look at the array and its deadline can come before that |
| Timers.ShutdownStrands | Examples/Bench.lean:67-75 | a reachable state in which a promise waits for ever after a shutdown |
| Timers.StoppedStrands | Examples/Bench.lean:49-50 | once the driver has stopped nothing is resolved any more, and what is pending stays so |
| PoolSplit.Split | Examples/Bench.lean:183-194 | the workers' ranges are all connections, in order, once each; no more workers than threads, none without any or with more than its share, and the first has all of it |
| PoolSplit.WavesArePerWorkerIff | Examples/Bench.lean:217-218 | the rounded quotient is the largest share exactly when there are threads, or no connections |
| PoolSplit.ReportedWavesAreTheShare | ffi/network.c:422-426 | as the reported number of CPUs is at least one, the reported waves are always the largest share |
| PoolSplit.SplitIsOptimal | Examples/Bench.lean:179-184 | no assignment to that many threads has a smaller largest load |
| Closures.Connection.Unregister | ffi/sqlite3_shim.c:667-672 | removing a registration gives up exactly its reference |
| Closures.Connection.Register | ffi/sqlite3_shim.c:693-696 | what was registered at that key is replaced, and one reference is the table's |
| Closures.WithoutKeeps | ffi/sqlite3_shim.c:716-727 | taking a function out touches no other |
| Closures.Replaces | ffi/sqlite3_shim.c:680-704 | a registration takes the place of the same function's and of no other |
| Closures.Connection.CreateFunction | ffi/sqlite3_shim.c:680-704 | the caller's reference moves to the table, replacing and releasing what was registered there; calls find the new closure, and every other function, by arity or by name but for case, stays and is found as before |
| Closures.Connection.DeleteFunction | ffi/sqlite3_shim.c:716-727 | the registration is gone and its reference with it, and every other function stays and is found as before |
| Closures.Connection.BeginCall | ffi/sqlite3_shim.c:650-660 | the closure applied is alive and has a reference of its own |
| Closures.Connection.EndCall | ffi/sqlite3_shim.c:659-664 | that reference is consumed |
| Closures.Connection.Close | ffi/sqlite3_shim.c:247-258 | all registrations are released, and only those references remain that Lean code or calls hold |
| Closures.AppliedIsAlive | ffi/sqlite3_shim.c:639-665 | a closure is never freed while it is applied, whatever the callback does |
| Closures.UnownedIsFreed | ffi/sqlite3_shim.c:667-672 | a closure nobody owns has been freed |

## Left out

- Running out of memory, everywhere: the branches for a failed allocation are not modelled.
- Channels.ReceiveMessage: takes any number of lines and stops at the first empty one, as a plain user of `readline`; the request line apart and the bound on header lines are in `RequestHeads.ReceiveHead`.
- ZlibCodec.ZStream.Inflate: a stream that needs a preset dictionary is one more stream that is no stream; zlib itself is a parameter, not DEFLATE.
- Base64Url.EvpDecode: rejects white space inside the input, as RFC 4648 asks by default, where OpenSSL may skip it.
- Base64Url.DecodesIff: of the decoder of RFC 4648, for which white space is no letter; OpenSSL skips white space, so there more strings decode, such as "Zm9v" followed by four newlines.
- Base64Url.UrlEncode: does not model the narrowing of lengths to `int` on the way into OpenSSL, which concerns inputs of 1.5 GiB and more.
- Base64Url.UrlDecode: does not model the narrowing of lengths to `int` on the way into OpenSSL, likewise; and it rejects white space, as `EvpDecode` does.
- TlsSession.PlaintextIsTheWrites: takes OpenSSL's word that with partial writes off a write takes all of its bytes or none; that a retried write repeats the same bytes is up to the caller.
- TLS handshakes, certificates, ALPN and the getters' results: an SSL call is modelled by its outcome alone.
- RequestReader.ReadRequest: text is ASCII, so that decoding a prefix of it cannot fail; an exception of `recv` ends the call.
- What the Lean runtime makes of a promise that nobody will resolve, and of its sleeper.
- Closures.Connection.CreateFunction: only when SQLite accepts the registration; whether it destroys a refused closure is up to SQLite.
- Closures.Connection.Close: SQLite may put off destroying the registrations until the last statement is finalized.
- Socket creation, addresses, event loops, UDP, and the wrappers over DuckDB, PostgreSQL and the key chain: thin calls into other libraries.
- HMAC, RSA, ECDSA and SHA-256 in `ffi/jose.c`: foreign code.
