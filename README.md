# webtty session protocol in Dafny

webtty shares a terminal over a WebRTC data channel. A host runs a command on a pty. A client, either the Go `webtty` binary or a browser page, attaches to it. The two sides exchange three kinds of data:

- a session description (the offer and the answer), which the user copies by hand or which travels through the 10kb.site relay;
- control messages on the channel: `"quit"`, `["stdin", s]`, `["set_size", r, c, x, y]`, and, in the first code base, `size,r,c,x,y`;
- raw terminal bytes as binary payloads.

This project models that protocol and proves what each side promises. The modules are:

- **Host** (host.go, config.go). The control-message dispatcher works on an abstract pty: a log of writes plus a window size of 16-bit fields. On top of the dispatcher sit:
  - the pty read pump;
  - one-way offer creation, with fresh keys, an encrypted Sdp and a random relay path;
  - decryption of the polled answer;
  - the teardown after `errChan` delivers.
  - `HostConfig` is a class whose methods update its fields, as `hostConfig`'s do.
- **Client** (client.go). Covers:
  - the `["set_size",R,C,X,Y]` message and the proof that the host dispatcher reads it back to the same window;
  - the message handler;
  - the open handler, whose size goroutine may act after any number of stdin passes.
- **Legacy** (main.go). The first-generation host and client:
  - the `size,` parser, which fills and truncates a four-field array;
  - `set_size` without X and Y;
  - the client that prints unknown strings and acts only on `"quit"`;
  - the base64 offer codec.
- **Sd** (pkg/sd/session_description.go). `Encode`/`Decode`, with zlib and base58 on the Sdp field and then JSON and base58 on the whole struct. `GenKeys`, `Encrypt` and `Decrypt` become functions from the old struct to the new struct and its error.
- **OfferCodec** (session_description.go). base64 of zlib of JSON, and the two-pass "append `=` and retry" loop.
- **WebClient** (web-client/src/main.go). The browser's `encode`/`decode`, with the package-level `key`/`nonce` kept between them. It also proves that the one-way handshake closes end to end.
- **Attach** (web-client/src/attach.ts). The xterm add-on:
  - the write buffer with its scheduled flushes;
  - `displayData`;
  - the `stdin` and `set_size` messages it sends, which the host dispatcher is shown to read back;
  - attach and detach.
- **TenKbSite** (ten_kb_site.go). Status classification, the polling loop over a scripted list of HTTP replies, and `randSeq`.
- **Session** (session.go). The shared session: the completion slot, the saved terminal state and the ordered cleanup.
- **Supporting modules**:
  - Common: bytes, Go's `uint16(n)` conversion, and the single completion slot `Post`, where the first value sent wins.
  - Decimal: `%d`, `strconv.Atoi` and `strings.Split`.
  - Json: the compact array texts the control messages use, and what Go's `encoding/json` makes of a string that is not valid UTF-8: each byte that does not open a valid encoding becomes U+FFFD.
  - Hex: section 8 of RFC 4648.
  - Base64: section 4 of RFC 4648, with Go's non-strict decoder.
  - Libraries: the library algorithms, passed as parameters.

Go strings and byte slices are both `seq<byte>`. JavaScript strings are their UTF-8 bytes, so the messages the browser sends feed the host dispatcher directly.

The library algorithms are record fields of function type, and their round-trip properties are predicates that the lemmas require:

- zlib deflate/inflate (RFC 1950/1951);
- base58;
- `encoding/json` for the struct types;
- AES-GCM (NIST SP 800-38D).

Only zlib's two-byte header check (section 2.2 of RFC 1950) is concrete.

Inputs from outside are parameters:

- the result of each pty or terminal call;
- the scripted results of `Read`;
- the HTTP replies;
- the random bytes and indices;
- the JSON array parser. It is assumed to read back every array text the senders write, with each string coerced to valid UTF-8 as `Json.Coerce` describes.

A Go panic becomes a precondition. Examples are indexing `msg[1]` of a one-element array and a GCM nonce of the wrong length.

## Model

| member | source | states |
|---|---|---|
| Common.Post | host.go:114-117 | sending on the capacity-one errChan: the slot is full afterwards, and a value already there stays |
| Common.ToU16 | host.go:145-152 | `uint16(n)` keeps n when it fits and is otherwise congruent to n modulo 65536 |
| Host.Resized | host.go:144-152 | Rows and Cols come from elements 1 and 2. X and Y come from elements 3 and 4 when the array has at least five elements, and are kept otherwise. Every value is cut to 16 bits |
| Host.React | host.go:104-171 | one payload: a full slot keeps its signal; at most one pty write is appended, and nothing earlier changes; a binary payload is appended as it is; the size changes only for an array message whose GetsizeFull and Setsize both succeed |
| Host.QuitEnds | host.go:114-117 | `"quit"` posts a graceful end and leaves the pty unchanged |
| Host.BinaryWritten | host.go:158-163 | a binary payload is written byte for byte and a write error is posted |
| Host.StrayTextUnmatched | host.go:112-157 | a string that is not `"quit"` and does not open with `["` posts `Unmatched string message: "<payload>"` and leaves the pty alone |
| Host.MessageIsArray | host.go:118-120 | an array whose first element is a string is dispatched as an array. The parser returns its elements, each string read back through Go's UTF-8 coercion, so the tag read is Coerce(tag) |
| Host.UnknownTagUnmatched | host.go:118-157 | an array whose tag, as Go reads it, is neither `stdin` nor `set_size` is reported as unmatched, with the payload in the error |
| Host.StdinWritten | host.go:121-132 | `["stdin", s]` writes Coerce(s): s with every byte that does not open a valid UTF-8 encoding replaced by U+FFFD. Valid UTF-8 is written exactly. An empty s writes nothing. Nothing is ever posted, because write errors are only logged |
| Host.InvalidStdinReplaced | host.go:121-132 | the keystroke byte 0xFF, which is not UTF-8, reaches the pty as EF BF BD |
| Host.ReactSetSize | host.go:133-155 | any array message that parses to a `set_size` array of three or more elements resizes the pty to Resized of its integers, unless GetsizeFull or Setsize fails, whose error is then posted |
| Host.SetSizeApplied | host.go:133-155 | `["set_size", r, c, ...]` (ASCII and integers, which Go reads back unchanged) sets the window to Resized of the current window. A GetsizeFull or Setsize error is posted instead and the window is unchanged |
| Host.FirstSignalStays | host.go:104-171 | over any run of payloads, the first completion signal is the one that stays |
| Host.BinaryRunWritten | host.go:158-163 | a run of binary payloads reaches the pty log in order and unchanged |
| Host.CleanPumpForwards | host.go:76-100 | error-free chunks are all sent as binary, in order. They are echoed to stdout exactly when the host is interactive. Nothing is signalled |
| Host.CleanPumpThenEof | host.go:76-100 | the same chunks followed by io.EOF end the pump with a graceful signal |
| Host.CleanPumpThenReadFailure | host.go:78-86 | clean chunks followed by a read error other than EOF end the pump with that error; nothing more is echoed or sent, whatever the later reads would be |
| Host.CleanPumpThenEchoFailure | host.go:87-92 | an interactive host whose stdout write fails ends the pump with that error, and the chunk it tried to echo is not sent |
| Host.CleanPumpThenSendFailure | host.go:94-98 | a failed Send ends the pump with its error after that chunk, and no later chunk is read |
| Host.PumpSplit | host.go:76-100 | the pump over two scripts is the pump over the second from where the first left it |
| Host.PumpSendsBufferSized | host.go:77-95 | no payload sent is longer than the 1024-byte read buffer |
| Host.PrintedOfferDecodes | host.go:231 | the printed offer, without its blank line, decodes back to the offer |
| Host.OneWayAnswer | host.go:245-259 | an answer obtained from the relay carries the offer's Key and Nonce. The relay is read through the corrected TenKbSite.ReadFile |
| Host.HostConfig.constructor | host.go:22-37 | a fresh host: the pty is not ready, nothing has been sent, and no terminal state is saved |
| Host.HostConfig.Signal | host.go:114-117 | `hc.errChan <- s` is Post on the slot |
| Host.HostConfig.OnDataChannel | host.go:173-181 | the data channel is recorded |
| Host.HostConfig.OnMessage | host.go:104-171 | with ptmxReady holding, the new pty and slot are those React gives for the old ones |
| Host.HostConfig.ReadPump | host.go:76-100 | the read loop leaves stdout, the sent log and the slot as Pump of the script gives them |
| Host.HostConfig.MakeRawTerminal | config.go:20-24 | the saved state becomes what MakeRaw returned, or none when it failed, and MakeRaw's error is returned |
| Host.HostConfig.RestoreTerminalState | config.go:13-18 | without a saved state: nil, and nothing is restored. Otherwise the saved state is restored and Restore's error is returned |
| Host.HostConfig.RawThenRestore | config.go:13-24 | after makeRawTerminal, restoreTerminalState restores exactly the state that call saved |
| Host.HostConfig.OnOpen | host.go:39-102 | a spawn error is signalled and leaves the pty not ready and the pump not started. Otherwise the pty becomes ready with the initial window. When interactive, a MakeRaw error is signalled and stops the pump. Otherwise the pump runs over the script. The io.Copy and SIGINT goroutines are not modelled |
| Host.HostConfig.CreateOffer | host.go:190-213 | createPeerConnection's and CreateOffer's errors are returned; with both successful nil is returned, since GenKeys' and Encrypt's errors are dropped. The offer carries the created Sdp. A one-way offer whose key read failed keeps the plain Sdp and empty Key and Nonce. One-way offers get a key that is the hex of the 32 key bytes (64 characters) and a nonce that is the hex of the 12 nonce bytes (24 characters). Their Sdp is the hex of the seal, and their relay path is 100 alphanumeric characters |
| Host.HostConfig.SetHostRemoteDescription | host.go:264-275 | the answer's Sdp becomes the remote description; SetRemoteDescription's error stops the run |
| Host.HostConfig.AfterWait | host.go:277-288 | the delivered error is returned. `"quit"` is sent only when a channel exists. The terminal is restored only for a terminal that has a saved state |
| Host.HostConfig.ReceiveAnswer | host.go:244-259 | the one-way branch leaves OneWayAnswer of the offer and the replies, and an answer obtained is stored as the host's answer. The relay is read through the corrected TenKbSite.ReadFile |
| Host.HostConfig.Run | host.go:216-262 | after a successful createOffer, the encoded offer and a blank line are printed to stdout; otherwise nothing is printed. The first failing step stops the run with its error: createPeerConnection's, CreateOffer's, then (two-way) the pasted description's decode error or (one-way) OneWayAnswer's error, then SetRemoteDescription's. When every step succeeds the run waits on errChan. Two-way, the answer's Sdp is the Sdp of the pasted description. One-way, the answer is OneWayAnswer of the offer and the replies, and polling that has not been answered leaves the run polling. The relay is read through the corrected TenKbSite.ReadFile |
| Client.TermSizeIsArray | client.go:23-24 | the `["set_size",%d,%d,%d,%d]` text is exactly the compact JSON array of the tag and the four fields, in order |
| Client.TermSizeReachesHost | client.go:18-27 | the message is ASCII, so Go's parser reads it back unchanged; fed to the host dispatcher, the client's size message sets the host window to the client's window, unless a pty size call fails |
| Client.TermSizeExample | client.go:23-26 | the window 19,29,9,8 is sent as `["set_size",19,29,9,8]`, and the host then has exactly that window |
| Client.FirstSignalAppend | client.go:49-60 | the first signal of a log does not change when more events follow |
| Client.SendsAppend | client.go:46-55 | the payloads sent by two logs in turn are the first log's followed by the second's |
| Client.QuitRestoresThenEnds | client.go:68-71 | `"quit"` restores the saved terminal state and then signals nil |
| Client.OtherTextUnmatched | client.go:73 | any other string signals an Unmatched string message error that contains the payload |
| Client.BinaryPrinted | client.go:74-77 | a binary payload is printed unchanged and nothing is signalled |
| Client.StdinForwarded | client.go:49-60 | every stdin pass sends what it read, in order, whatever errors occur |
| Client.SizeSentOnce | client.go:39-60 | after whichever number of stdin passes the size goroutine acts, the window size is sent exactly once, and the stdin chunks around it are all sent in order |
| Client.RawErrorReported | client.go:32-36 | a MakeRaw error is what runClient reports, whenever the size goroutine acts |
| Client.SizeFailureExits | client.go:19-22 | a GetsizeFull failure ends the process: only the stdin passes finished before it have sent anything, and nothing follows the exit |
| Client.ClientSession.SendTermSize | client.go:18-27 | a size failure exits. Otherwise the size message is sent and Send's error is returned |
| Client.ClientSession.OnMessage | client.go:64-83 | the log grows by OnMessageEvents, and the slot stays the first signal of the log |
| Client.ClientSession.Pass | client.go:50-59 | one pass of the stdin loop appends that step's events |
| Client.ClientSession.StdinLoop | client.go:49-60 | the loop over a script appends StdinEvents of the script |
| Client.ClientSession.OnOpen | client.go:29-62 | the log grows by the open handler's events: the raw error, the stdin passes made before the size goroutine acts, its size message or exit, then the remaining passes |
| Legacy.SizeRoundTrip | main.go:131-153 | the legacy client's `size,R,C,X,Y` sets the host window to exactly that window, unless Setsize fails |
| Legacy.SizeFieldsDefault | main.go:133-140 | with fewer than four numbers the missing fields are 0. A field that is not a number gives 0 and a syntax error, unless its leading digits already overflow uint64: then it gives the int64 bound of its sign and a range error. The first such error is what is signalled |
| Legacy.OverflowingRowsClamp | main.go:133-149 | a row field `99999999999999999999x` makes the host ask for 65535 rows and signal a range error |
| Legacy.FirstBadFieldReported | main.go:135-140 | the first field that fails Atoi is the error that fills the slot |
| Legacy.PostAllFirst | main.go:135-140 | posting a list of errors leaves the first of them in an empty slot |
| Legacy.NoErrors | main.go:135-140 | fields that all parse post nothing |
| Legacy.SizeReact | main.go:131-153 | the `size,` branch never writes to the pty |
| Legacy.React | main.go:126-193 | the first signal posted stays in the slot |
| Legacy.QuitIgnored | main.go:126-193 | `"quit"` matches neither test of the legacy host and changes nothing |
| Legacy.StdinAlwaysWritten | main.go:157-163 | legacy `["stdin", s]` writes Coerce(s), which is s for valid UTF-8, even when it is empty, and posts a write error |
| Legacy.SetSizeRowsCols | main.go:164-180 | legacy `set_size` sets only Rows and Cols; X and Y are what GetsizeFull returned |
| Legacy.LegacyHost.constructor | main.go:126-130 | the pty starts with no writes and the given window, the slot is empty, and nothing has been echoed or sent |
| Legacy.LegacyHost.OnOpen | main.go:72-124 | a spawn error is signalled and nothing else happens. MakeRaw is always called and its state discarded: its error is signalled and stops the pump. Otherwise the pump runs over the script. The io.Copy and SIGINT goroutines are not modelled |
| Legacy.LegacyHost.ReadPump | main.go:106-122 | the read loop leaves stdout, the sent log and the slot as Legacy.Pump of the script gives them |
| Legacy.PumpOnce | main.go:107-121 | a chunk is always echoed and sent; the loop ends exactly on a read error, io.EOF included, or a Send error |
| Legacy.CleanPumpForwards | main.go:106-122 | when every Send succeeds, every chunk is echoed and sent in order, whatever the echo returned, and nothing is signalled |
| Legacy.CleanPumpThenEof | main.go:107-113 | clean passes and then the end of the pty's output: io.EOF is posted as the session's error, where the newer host ends gracefully |
| Legacy.EchoErrorIgnored | main.go:115 | a failed echo is ignored and the chunk is still sent; the newer interactive host signals it and stops |
| Legacy.PumpsAgreeOnChunks | main.go:106-122 | on clean passes the legacy pump and the newer interactive pump leave the same state |
| Legacy.LegacyHost.Signal | main.go:138 | `errChan <- err` is Post on the slot |
| Legacy.LegacyHost.SizeField | main.go:135-140 | one pass of the field loop: field i is Atoi's value, and its error joins the slot |
| Legacy.LegacyHost.SizeFields | main.go:133-140 | the loop into the `[4]int` gives SizeValues of the fields, and the slot gets the fields' Atoi errors in order |
| Legacy.LegacyHost.OnMessage | main.go:126-193 | the new pty and slot are those Legacy.React gives |
| Legacy.ClientOnlyPrintsOtherText | main.go:313-318 | where the newer client signals an error for an unknown string, the legacy client only prints its message line: it neither signals nor restores |
| Legacy.ClientsAgree | main.go:310-328 | on binary payloads the two clients behave the same; on `"quit"` the legacy client prints its message line and then does what the newer one does |
| Legacy.LegacyClient.SendSize | main.go:283-289 | a size failure exits; otherwise `size,R,C,X,Y` is sent |
| Legacy.LegacyClient.OnMessage | main.go:310-328 | the log grows by ClientEvents, which prints every string payload's message line first, and the slot stays its first signal |
| Legacy.DecodeOfferSpec | main.go:401-425 | a base64 error after the retry is returned; otherwise the result is the zlib read of the decoded bytes |
| Legacy.DecodeOffer | main.go:401-425 | the two-pass loop and the zlib reader compute DecodeOfferSpec |
| Legacy.DecodeEncode | main.go:393-425 | every Sdp is read back from its encoding, also when the encoding lost its single closing `=` |
| Legacy.TwoDroppedPadsFail | main.go:403-412 | an encoding that lost both `=` is not recovered |
| Sd.Decode | pkg/sd/session_description.go:28-45 | the error of the first failing step (JSON, the zlib header, inflation) is returned. On success the other fields come from the JSON and the Sdp is the inflated text |
| Sd.DecodeEncode | pkg/sd/session_description.go:18-45 | Decode of Encode of x is x: the Sdp, TenKbSiteLoc, Key and Nonce all survive |
| Sd.GenKeys | pkg/sd/session_description.go:54-68 | the Key is the hex of the 32 bytes read (64 characters) and the Nonce the hex of the 12 (24 characters). A failed read returns its error, and a key read before a failed nonce read is kept. Sdp and TenKbSiteLoc do not change |
| Sd.Encrypt | pkg/sd/session_description.go:70-94 | it succeeds exactly when the nonce and key are hex and the key has an AES size. The Sdp then becomes the hex of the seal. On error nothing changes |
| Sd.Decrypt | pkg/sd/session_description.go:96-132 | errors come from the hex of the key, then the Sdp, then the nonce, then the key size, then authentication. On any error the struct is unchanged. On success the new Sdp is what Open returned |
| Sd.GenKeysThenEncrypt | pkg/sd/session_description.go:54-94 | fresh keys always encrypt, and the Sdp becomes the hex of the seal under them |
| Sd.EncryptChangesSdp | pkg/sd/session_description.go:92 | the encrypted Sdp differs from the plaintext |
| Sd.DecryptEncrypt | pkg/sd/session_description.go:70-132 | Decrypt with the same Key and Nonce restores the Sdp that Encrypt replaced |
| Sd.DecryptAuthenticates | pkg/sd/session_description.go:125-130 | a successful Decrypt was given exactly the hex of the seal of what it returns |
| OfferCodec.DecodeWithRetry | session_description.go:30-39 | the two-pass loop leaves the decoding of the text, or of the text with one `=` appended |
| OfferCodec.DecodeOfferSpec | session_description.go:29-59 | the base64 error after the retry, else the zlib error, else the JSON unmarshalling of the inflated text |
| OfferCodec.DecodeOffer | session_description.go:29-59 | decodeOffer computes DecodeOfferSpec |
| OfferCodec.ValidTextUnchanged | session_description.go:31-36 | valid base64 is decoded as it is, and no `=` is appended |
| OfferCodec.RetriedEncoding | session_description.go:21-36 | the bytes of an encoding are recovered as they are |
| OfferCodec.OneDroppedPadRecovered | session_description.go:31-36 | an encoding that lost its one closing `=` is recovered |
| OfferCodec.TwoDroppedPadsFail | session_description.go:31-42 | an encoding that lost both closing `=` is an error |
| OfferCodec.DecodeEncode | session_description.go:11-59 | decodeOffer of encodeOffer of x is x, with both Sdp and TenKbSiteLoc |
| OfferCodec.DecodeEncodeDroppedPad | session_description.go:11-59 | the same holds when the encoding lost one closing `=` |
| WebClient.EncodeAnswer | web-client/src/main.go:20-40 | the Sdp is encrypted only when a key is held. An encryption error gives an empty encoding and the error's text. The encoded struct carries neither Key nor Nonce |
| WebClient.DecodeOffer | web-client/src/main.go:42-58 | a Decode error gives an empty Sdp and location with the error text, and the keys are untouched. An offer with a key makes its Key and Nonce the held ones. An offer without a key returns its Sdp and TenKbSiteLoc. Any error comes with an empty Sdp and location |
| WebClient.AnswerCarriesNoKeys | web-client/src/main.go:34-37 | what the host decodes from an answer is the Sdp, encrypted when a key is held, with empty Key, Nonce and TenKbSiteLoc |
| WebClient.OfferDecrypted | web-client/src/main.go:48-55 | an encrypted offer decodes to its plain Sdp and TenKbSiteLoc, and its keys become the held ones |
| WebClient.AnswerReachesHost | web-client/src/main.go:22-37 | an answer encoded under the offer's keys, uploaded after any number of 404s, is decrypted by the host's run to the answer's Sdp |
| WebClient.OneWayHandshake | host.go:208-257 | the whole one-way exchange: GenKeys, Encrypt, the browser's decode and encode, polling, and the host's Decrypt give the browser's Sdp to the host |
| WebClient.WebClient.constructor | web-client/src/main.go:15-18 | the package variables start empty |
| WebClient.WebClient.Encode | web-client/src/main.go:20-40 | encode computes EncodeAnswer under the held keys |
| WebClient.WebClient.Decode | web-client/src/main.go:42-58 | decode computes DecodeOffer and leaves the held keys as it says |
| Attach.Or | web-client/src/attach.ts:81-83 | `a \|\| b`: a when a is truthy, otherwise b |
| Attach.Stringify | web-client/src/attach.ts:38 | `+=` appends a string as itself and `undefined` or `null` as a word |
| Attach.Push | web-client/src/attach.ts:36-43 | a non-empty buffer is appended to. Otherwise the data becomes the buffer and exactly one flush is scheduled. Nothing is written |
| Attach.Flush | web-client/src/attach.ts:31-34 | the whole buffer is written, the buffer becomes null and one scheduled flush is used |
| Attach.Display | web-client/src/attach.ts:79-85 | buffered: Push of `str \|\| data`; unbuffered: written at once |
| Attach.Adds | web-client/src/attach.ts:79-85 | a non-empty message adds itself. An empty one adds nothing, except the word `undefined` when it is appended to a buffer that holds text |
| Attach.PushKeepsText | web-client/src/attach.ts:36-43 | pushing keeps every byte and its order, and text in the buffer always has a flush scheduled |
| Attach.FlushKeepsText | web-client/src/attach.ts:31-34 | a flush moves the buffer to the terminal and loses nothing |
| Attach.DisplayKeepsText | web-client/src/attach.ts:79-85 | displaying adds exactly what Adds says to the text that will eventually be shown |
| Attach.SettledShowsAll | web-client/src/attach.ts:31-43 | once no flush is pending, the terminal shows everything that was displayed, in order |
| Attach.UnbufferedWritesAtOnce | web-client/src/attach.ts:83 | unbuffered, a message is on the terminal as soon as it is displayed |
| Attach.OneFlushForABurst | web-client/src/attach.ts:36-43 | two messages within one timer window share one flush, which writes them concatenated |
| Attach.EmptyMessageAppendsUndefined | web-client/src/attach.ts:79-85 | an empty message while text is buffered puts the word "undefined" on the terminal |
| Attach.StdinReachesHost | web-client/src/attach.ts:87-89 | `JSON.stringify(["stdin", data])` makes the host write Coerce(data), which is exactly data for the valid UTF-8 of a JavaScript string |
| Attach.SetSizeKeepsPixels | web-client/src/attach.ts:91-93 | `["set_size", rows, cols]` sets the host's rows and columns, cut to 16 bits, and keeps X and Y |
| Attach.Attachment.constructor | web-client/src/attach.ts:21-108 | `bidirectional` defaults to true. The data handler is registered only when bidirectional; the message, resize, close and error handlers always are |
| Attach.Attachment.PushToBuffer | web-client/src/attach.ts:36-43 | the screen becomes Push of the old one, and the eventual text grows as PushKeepsText says |
| Attach.Attachment.FlushBuffer | web-client/src/attach.ts:31-34 | the screen becomes Flush of the old one, and the invariant holds |
| Attach.Attachment.DisplayData | web-client/src/attach.ts:79-85 | the screen becomes Display of the old one, and the eventual text grows by Adds |
| Attach.Attachment.GetMessage | web-client/src/attach.ts:46-70 | ArrayBuffer, Blob and string messages are displayed as text. A message of another type throws `Cannot handle "<type>" websocket message.` and changes nothing |
| Attach.Attachment.OnData | web-client/src/attach.ts:87-99 | a keystroke sends the stdin message only while the data handler is registered |
| Attach.Attachment.OnResize | web-client/src/attach.ts:91-100 | a resize sends the set_size message while the resize handler is registered |
| Attach.Attachment.Detach | web-client/src/attach.ts:116-127 | the data handler is removed. The message listener is removed when a socket is given or `__socket` is set. `__socket` is deleted |
| TenKbSite.CreateFile | ten_kb_site.go:15-27 | a transport error is returned. Success means exactly status 201, and any other status gives an error whose text contains the status code |
| TenKbSite.StatusErrorNamesStatus | ten_kb_site.go:21-24 | the status error's text contains the decimal status code |
| TenKbSite.ReadFile | ten_kb_site.go:29-43 | 200 and 404 give their status and body with no error. Any other status gives an empty body and an error naming the status. A transport error is returned |
| TenKbSite.UnreachablePanics | ten_kb_site.go:30-32 | as written, a transport error dereferences the nil response |
| TenKbSite.ReadFileAgrees | ten_kb_site.go:29-43 | whenever a response exists, the corrected ReadFile returns what the source returns |
| TenKbSite.PollAnswered | ten_kb_site.go:45-59 | the first reply that is not a 404 decides the outcome: its body and its error, as the corrected ReadFile gives them |
| TenKbSite.PollRetrying | ten_kb_site.go:47-58 | nothing but 404s keeps polling |
| TenKbSite.PollAnsweredInverse | ten_kb_site.go:45-59 | an answer after n requests means n - 1 retries and then the deciding reply |
| TenKbSite.PollAnswerIsFinal | ten_kb_site.go:49-54 | an answer carries an error or comes from status 200 |
| TenKbSite.PollForResponse | ten_kb_site.go:45-59 | the loop computes PollSpec of the scripted replies, each read through the corrected ReadFile |
| TenKbSite.NotFoundTwiceThenBody | ten_kb_site.go:45-59 | two 404 replies and then `body` give `body` with a nil error |
| TenKbSite.RandSeq | ten_kb_site.go:61-70 | exactly n characters, each from the 62-character `0-9a-zA-Z` alphabet at the index drawn |
| Session.CleanupActions | session.go:34-47 | `"quit"` is sent exactly when a channel exists. A state is restored exactly when stdin is a terminal and that state is saved. When both happen, the quit comes first |
| Session.QuitBeforeRestore | session.go:35-46 | in cleanup the quit always comes before the restore |
| Session.Session.constructor | session.go:12-22 | a zero session: no completion slot, no saved state, no channel and no actions |
| Session.Session.Init | session.go:24-32 | a fresh empty completion slot, isTerminal recorded, and createPeerConnection's error returned |
| Session.Session.SetChannel | session.go:21-35 | once `session.dc` is set, cleanup will send `"quit"`. The assignment itself is made in code outside the modelled files |
| Session.Session.RestoreTerminalState | session.go:49-54 | without a saved state: nil and no action. Otherwise the saved state is restored and Restore's error is returned |
| Session.Session.MakeRawTerminal | session.go:56-60 | the saved state becomes what MakeRaw returned, or none when it failed |
| Session.Session.Cleanup | session.go:34-47 | the actions are CleanupActions. A failed quit and a failed restore are only logged |
| Session.Session.RawThenCleanup | session.go:34-60 | cleanup after makeRawTerminal restores exactly the state that call saved, after the quit |
| Base64.DecodeEncode | session_description.go:21-32 | base64 decoding of every encoding gives back the bytes |
| Base64.RaggedFails | session_description.go:32 | a text whose length, with `\r` and `\n` left out, is not a multiple of four is refused |
| Base64.BreaksIgnored | session_description.go:32 | a `\r\n` inserted anywhere does not change what is decoded |
| Base64.EncodeNoBreaks | session_description.go:21 | an encoding holds neither `\r` nor `\n` |
| Base64.EncodePadding | session_description.go:21 | an encoding ends in two `=` or one `=` according to the length of the input modulo three |
| Hex.DecodeEncode | pkg/sd/session_description.go:92-102 | hex decoding of every encoding gives back the bytes |
| Hex.Decode | pkg/sd/session_description.go:72-77 | an odd length is an error, and a success has half the length |
| Decimal.Atoi | main.go:135 | a value in the int64 range. When the leading digits exceed 2^64 - 1 the result is the bound of the sign with a range error, whatever follows them. Otherwise a text that is not an integer gives 0 with a syntax error, and an integer text either parses or gives a range error. No error means the text is an integer and the value is the one it denotes |
| Decimal.ShortNeverOverflows | main.go:135 | a text shorter than 20 bytes never takes the overflow path |
| Decimal.OverflowBeforeJunk | main.go:135 | `99999999999999999999x` is not an integer text yet overflows, and gives 9223372036854775807 and a range error, because the digits overflow before the `x` is read |
| Decimal.AtoiOfItoa | main.go:287-288 | reading back what `%d` wrote, with the Atoi of main.go line 135, gives the number with no error |
| Decimal.SplitCons | main.go:132 | splitting at the first separator gives that piece and then the split of the rest |
| Json.EscapePlain | client.go:23 | a text of plain bytes is written inside a string literal as itself |
| Json.ArrayTextOpens | host.go:118 | an array whose first element is a string starts with `["` |
| Json.CoerceKeepsValid | host.go:120 | `json.Unmarshal` reads valid UTF-8 back unchanged |
| Json.CoerceLength | host.go:120 | coercion never shortens a string, and a string that is not valid UTF-8 grows by at least two bytes |
| Json.CoerceFixed | host.go:120 | a string is read back as itself exactly when it is valid UTF-8, and is read back empty exactly when it is empty |
| Json.CoerceIsValid | host.go:120 | what is read back is always valid UTF-8, so reading it again changes nothing |
| Json.AsciiValid | host.go:120 | ASCII is valid UTF-8 and is read back unchanged |
| Json.InvalidBytesReplaced | host.go:120 | a lone 0xFF, and a two-byte lead cut short, each come back as U+FFFD |
| Libraries.HeaderErrors | pkg/sd/session_description.go:35-38 | zlib.NewReader's header check: fewer than two bytes, a method other than deflate, a window over 32K, or a failed check value is an error. With FDICT set, fewer than six bytes is an unexpected EOF and a dictionary checksum other than 1 (the empty dictionary's) is a dictionary error. The header passes exactly when none of these applies |
| Libraries.ReadCompressed | pkg/sd/session_description.go:33-43 | reading a zlib stream the writer produced gives back the data |

## Left out

- WebRTC itself: the peer connection, data-channel setup and locking, and ICE. `Send` is an append to a log of sent payloads, and what the peer connection returns is a parameter.
- The pty, the terminal and the OS:
  - spawning the command, pty reads and writes, and `GetsizeFull`/`Setsize`;
  - `MakeRaw`/`Restore`; `TermState` is an identity.
  - The result of each call is a parameter.
  - `clearTerminal`, the coloured console output and client.go:30's plain `Data channel '<label>'-'<id>'='<lifetime>' open.` line have no protocol effect and are left out. The legacy client's line for each string payload is modelled, since it goes to the same stdout as the terminal bytes; the data-channel library's name for the string payload type is a parameter.
- Concurrency and timing. Left out:
  - the SIGINT goroutines, later SIGWINCH signals, the host's `io.Copy` of its own stdin into the pty (host.go:60-64, whose writes would interleave with the data channel's and whose error is only logged), and the blocking of the capacity-one channel;
  - the client's initial SIGWINCH send runs beside the stdin loop: the model takes the number of passes finished before it as a parameter, so a size send that falls between a pass's read and its Send is placed after that pass;
  - the `ptmxReady` busy-wait, which becomes the requirement `ptmxReady` on `Host.HostConfig.OnMessage`;
  - `time.Sleep` and attach.ts's `setTimeout`, which is a count of pending flushes.
- The stdin loops of both clients loop forever in the source. Here they run over a finite script of passes.
- Effects after the first signal are still logged. In the source a second send on the full channel would block that goroutine.
- HTTP: `http.Post`/`http.Get` are scripted replies (status, body, body-read error, or a transport error).
- Library algorithms are parameters with round-trip properties. Their algorithms are not modelled:
  - zlib inflate/deflate (only the header check is concrete);
  - base58;
  - `encoding/json` for the struct types;
  - the JSON array parser (only the texts the senders produce are tied to it, read back with invalid UTF-8 replaced by U+FFFD);
  - AES-GCM.
- `math/rand` and `crypto/rand` are oracles: the indices `r.Intn(62)` returned, and the bytes `io.ReadFull` delivered.
- `mustReadStdin` reads a pasted line; here the pasted text is a parameter.
- The legacy client's stdin loop (main.go:290-307) is not modelled separately. It is the same loop as client.go:48-60, which is modelled. The legacy host's open handler is modelled on its own (Legacy.LegacyHost.OnOpen), because it differs from host.go's: io.EOF is posted as an error, every chunk is echoed with the echo's error ignored, MakeRaw's state is never restored, and its SIGINT goroutine (not modelled) sends `"quit"` and posts nil.
- `runHost`, `runClient`, `main`, `createPeerConnection` and `onDataChannel`'s channel wiring are left out as transport setup. `Host.HostConfig.OnDataChannel` only records that a channel exists.
- attach.ts:
  - TextDecoder's UTF-8 decoding, and FileReader's asynchronous load. A Blob is displayed when it arrives.
  - xterm's `write` of `undefined` or `null` is taken to show nothing.
  - The UI glue in app.ts and app.js is not part of this model.
- Host.HostConfig.OnMessage: requires `Dispatchable`, because the source panics on an array message without the elements it indexes (`msg[0]`, `msg[1]`, `size[2]`) or on invalid JSON after `["`. Legacy.LegacyHost.OnMessage requires the same, plus at most four `size,` fields.
- Host.HostConfig.CreateOffer: requires that a successful key read comes with a successful nonce read, since Encrypt would panic on the empty nonce left by a failed one. It also requires the 100 random indices to be in range.
- WebClient.WebClient.Decode: requires `Decryptable`: a keyed offer's nonce must fit GCM, or Decrypt panics. WebClient.WebClient.Encode needs the same of the held keys.
- Sd.Encrypt: requires `NonceFits` for the same panic. Sd.Decrypt requires it too.
- Attach.Attachment.PushToBuffer: requires the add-on to be buffered, since only `displayData` calls it and only in buffered mode.
- Attach.Attachment.Detach does not model a socket argument that differs from the attached one.
- Sd.Encode takes its argument by value. As a Dafny function on a datatype the caller's struct cannot change, so there is nothing to state.
- The base64 retry recovers one missing `=`, not two. The code appends one `=` on a failed first pass and decodes only once more (session_description.go:31-36, main.go:403-409). OfferCodec.TwoDroppedPadsFail proves that two are not recovered.
- Hex.Decode: an invalid character gives an error reading `encoding/hex: invalid byte`; Go's text also names the byte in `%#U` form, which is not modelled.
- Decimal.Atoi: the error texts hold the input as it is; Go quotes it with strconv.Quote, which escapes quotes, backslashes and non-printable bytes.
- Base64.Decode: all corrupt inputs give one error; Go's CorruptInputError also carries the offset of the bad byte.
- TenKbSite.PollSpec, TenKbSite.PollForResponse, Host.OneWayAnswer, Host.HostConfig.ReceiveAnswer and Host.HostConfig.Run read the relay through the corrected TenKbSite.ReadFile. As written, a transport failure panics inside pollForResponse (see the Findings row).

## Findings

| source | as written | input that shows it | evidently intended | confidence | as-written member | corrected member |
|---|---|---|---|---|---|---|
| ten_kb_site.go:30-32 | when `http.Get` fails, `read10kbFile` returns `resp.StatusCode` while `resp` is nil | a transport failure such as an unreachable relay (a CheckRedirect failure returns a non-nil response and is not affected) | return the transport error, with status 0 and an empty body | not executed | TenKbSite.UnreachablePanics | TenKbSite.ReadFile |
