# Verified models of the E-protect home alarm

E-protect is a home alarm: PIC firmware that collects sensor lines, a base station that shows them and
reports them to a server, and the server's device table. Its tree also carries Contiki's SLIP tools. This
project models the parts of it whose correctness is not plain from the code, and proves what they keep.
Arrays, indices and fields that the source updates in place are updated in place here too; each such method
is proved equal to a function on values, and the laws are proved about those functions.

| file | what it models |
|---|---|
| `Bytes.dfy` | bytes, options, flattening |
| `Slip.dfy` | SLIP framing on values: encoder, decoder with its 2000-byte limit, the laws between them |
| `Link.dfy` | one tunslip6 process as a state machine over its select loop, and two of them joined by a line |
| `Tunslip.dfy` | tunslip6's code on its arrays `inbuf` and `slip_buf`, proved against `Link` |
| `Scat.dfy` | scat's nested-loop decoder, and its agreement with tunslip6's |
| `Ifconf.dfy` | the in-place IPv6 "::" expander |
| `Polygon.dfy` | point in polygon by ray casting, with its bounding-box exit |
| `Convex.dfy` | what the ray casting answers on strictly convex paths |
| `UartBuffer.dfy` | the UART ring buffers of the PIC |
| `Functions.dfy`, `Lines.dfy` | the base station's substring scan, field parser and reading of sensor lines |
| `Base.dfy` | the base station's connection, ping timer and sensor list |
| `StationLog.dfy` | which messages the base station sends and why, and what its counters and sensors hold |
| `Server.dfy` | the server's socket handlers, tables and publications |
| `Mirror.dfy` | station, line and server together |

## What the code turns out to do

Where the code does less than one would expect of it, the model follows the code.

- tunslip6 tests the second byte of a finished frame even when the frame has one byte. So it answers more than
  the requests made, exactly when some frame ends as a lone `?` while slot 1 of the buffer still holds a `P`
  (`AnswersRequests`, `StaleRequest`).
- A frame of 2000 bytes or more does not vanish: the decoder yields its last length-mod-2000 bytes
  (`OverflowLaw`).
- The "::" expander leaves some groups behind, clears one or never reads one, so it is right only for shapes where
  it does none of that and for addresses whose groups there are zero (`ExpandsExactly`). An address written out
  in eight groups loses its last one (`FullAddress`). `1::2:3:4:5:6` comes out as `1:0:2:3:4:0:5:6`.
- The ring buffer holds 63 bytes; the 64th empties it (`NewestModulo`, `FaithfulExactly`). `Data1Available` is
  the number of unread bytes only while they do not wrap (`DataAvailable`).
- `jsonData` bounds its copying loop by a counter it never advances, so values are returned whole, not cut at
  42 characters. It reads behind the terminator on some lines (`OverrunExactly`, `OverrunHappens`).
- `socket_send` and `socketConnect` call each other, once more for every connection that succeeds, whose greeting
  fails and takes more than 10 seconds. How deep is exact (`NestsExactly`). The model gives both a supply of fuel,
  one unit a call: a call or a run returns when some fuel is enough, and then more makes no difference
  (`RunOutcome`). The theorems about runs hold for every run that returns, in any environment. A run that
  leaves a string or the sensor list has no outcome either. Every call returns if and only if no chain of such
  connections is endless (`CalmExactly`), and then every run does that stays inside them (`CalmRuns`).
- Points on a side of a triangle or another convex path count as inside or outside by the direction in which the
  side passes them (`ConvexExactly`).
- `jsonData` finds a key's text wherever it first stands, also inside an earlier value, and then returns the value
  after it (`NextField`).

## Model

| member | source | states |
|---|---|---|
| Slip.EncodeShape | SE/ContikiOS/contiki/tools/tunslip6.c:410-425 | an encoding is one byte longer than the packet plus its END and ESC bytes, and its only END is its last byte |
| Slip.WireFormat | SE/ContikiOS/contiki/tools/tunslip6.c:410-425 | the bytes on the line are 192 for END, 219 for ESC, and 219 220 and 219 221 for those two in a packet, as RFC 1055 has them |
| Slip.Resumable | SE/ContikiOS/contiki/tools/tunslip6.c:173-188 | a byte stream cut into any chunks, also right after an ESC, gives the same frames and leftover state as in one piece |
| Slip.FrameBounds | SE/ContikiOS/contiki/tools/tunslip6.c:173-178 | every frame has 1 to 1999 bytes and the buffer never stays full |
| Slip.OverflowLaw | SE/ContikiOS/contiki/tools/tunslip6.c:173-178 | for every byte stream the limited decoder yields the unlimited decoder's frames, each cut to its last length-mod-2000 bytes and dropped when that is none |
| Slip.EncodeThenDecode | SE/ContikiOS/contiki/tools/tunslip6.c:191-295 | decoding the encodings of any packets yields each packet's last length-mod-2000 bytes and leaves the decoder fresh |
| Slip.RoundTripExactly | SE/ContikiOS/contiki/tools/tunslip6.c:410-425 | the round trip is the identity if and only if every packet has 1 to 1999 bytes |
| Slip.DecodeEncodeDecode | SE/ContikiOS/contiki/tools/tunslip6.c:191-295 | what was decoded from any byte stream survives encoding and decoding again |
| Slip.ReadEscaped | SE/ContikiOS/contiki/tools/tunslip6.c:276-291 | behind 219 the byte 220 reads as 192, 221 as 219, and any other as itself |
| Slip.AnswerLaw | SE/ContikiOS/contiki/tools/tunslip6.c:216-241 | for every byte stream, the number of answers is that of the unlimited decoder's frames whose remainder begins with '?' and leaves 'P' in slot 1, stale or not |
| Slip.AnswersRequests | SE/ContikiOS/contiki/tools/tunslip6.c:216-241 | from every state and for every byte stream, each frame "?P..." is answered, and nothing else is if and only if no frame ends as a lone '?' while slot 1 holds 'P' |
| Slip.LoneQuestion | SE/ContikiOS/contiki/tools/tunslip6.c:216-217 | a lone '?' is answered if and only if slot 1 of the buffer still holds 'P' |
| Slip.PlainRequest | SE/ContikiOS/contiki/tools/tunslip6.c:216-241 | the bytes 63 80 192 are answered once |
| Slip.StaleRequest | SE/ContikiOS/contiki/tools/tunslip6.c:216-217 | a concrete stream without any request that gets one answer |
| Link.FlushConserves | SE/ContikiOS/contiki/tools/tunslip6.c:357-378 | whatever write answers, bytes written followed by bytes queued stay the same sequence, and the indices meet only at 0 |
| Link.FlushAdvances | SE/ContikiOS/contiki/tools/tunslip6.c:366-376 | a write that accepts n bytes moves exactly min(n, queued) of them to the wire, and the queue's end stays in place until it is empty; only a failed write of queued bytes ends the process |
| Link.TunWhole | SE/ContikiOS/contiki/tools/tunslip6.c:441 | packets of up to 2000 bytes are taken whole, longer ones cut to 2000 |
| Link.PassWrites | SE/ContikiOS/contiki/tools/tunslip6.c:970-998 | how many bytes each pass gives to the line |
| Link.Drains | SE/ContikiOS/contiki/tools/tunslip6.c:357-378 | when the write counts of passes without arrivals add up to the bytes queued, all of them are on the wire and the queue is empty |
| Link.Takes | SE/ContikiOS/contiki/tools/tunslip6.c:987-998 | with the queue empty and the delay over, a packet that fits is taken, encoded behind what was sent |
| Link.AllTaken | SE/ContikiOS/contiki/tools/tunslip6.c:947-998 | one packet after another is taken in order and sent entirely, over any number of partial writes each |
| Link.PacketOverflow | SE/ContikiOS/contiki/tools/tunslip6.c:344-346 | from an empty queue, overflow strikes if and only if packet, stuffing and END exceed 2000 bytes |
| Link.ReplyIsEncoded | SE/ContikiOS/contiki/tools/tunslip6.c:234-240 | the answer to a prefix request, pieced together by hand, is the encoding of "!P" and the address |
| Link.PassLog | SE/ContikiOS/contiki/tools/tunslip6.c:954-987 | a pass enqueues one answer per request that arrived, and takes a tun packet if and only if the queue was empty at select and no answer went in |
| Link.PassesKeep | SE/ContikiOS/contiki/tools/tunslip6.c:931-999 | in every run the bytes written and queued are one END and the encodings of all messages in order, and the frames are what the decoder makes of all input |
| Link.EndToEnd | SE/ContikiOS/contiki/tools/tunslip6.c:931-999 | for two hosts on a line that keeps order, under any partial writes, requests and chunking, the frames one decodes are a prefix of the other's non-empty messages, and all of them once drained |
| Link.EveryMessageArrives | SE/ContikiOS/contiki/tools/tunslip6.c:931-999 | after any run, draining the queue and then taking any list of packets that fit always succeeds, and a peer that has read the line has decoded every message, those packets among them |
| Link.PassEnds | SE/ContikiOS/contiki/tools/tunslip6.c:344-369 | a pass ends the process if and only if the first read is empty, answers lack room, a write fails for good, or the packet with stuffing and END exceeds 2000 bytes |
| Link.PassesEnd | SE/ContikiOS/contiki/tools/tunslip6.c:931-999 | a run ends early if and only if one of its passes ends in such a way, in the state the earlier ones left |
| Tunslip.Tunnel.constructor | SE/ContikiOS/contiki/tools/tunslip6.c:914 | zeroed buffers and one END queued |
| Tunslip.Tunnel.SlipSend | SE/ContikiOS/contiki/tools/tunslip6.c:341-349 | appends the byte, or fails and changes nothing when slip_end is 2000 |
| Tunslip.Tunnel.SlipSendChar | SE/ContikiOS/contiki/tools/tunslip6.c:323-339 | appends the byte stuffed |
| Tunslip.Tunnel.SlipEmpty | SE/ContikiOS/contiki/tools/tunslip6.c:351-355 | testing slip_end against 0 tells exactly whether bytes are queued |
| Tunslip.Tunnel.SlipFlushbuf | SE/ContikiOS/contiki/tools/tunslip6.c:357-378 | moves the accepted bytes to the wire, for every outcome of write |
| Tunslip.Tunnel.WriteToSerial | SE/ContikiOS/contiki/tools/tunslip6.c:380-427 | the stuffing loop and END append the packet's encoding, or fail exactly when it does not fit |
| Tunslip.Tunnel.SendPrefix | SE/ContikiOS/contiki/tools/tunslip6.c:234-240 | appends the answer to a prefix request |
| Tunslip.Tunnel.EndFrame | SE/ContikiOS/contiki/tools/tunslip6.c:192-275 | a frame is emitted when it has bytes, answered when slots 0 and 1 ask for it, and the buffer restarts |
| Tunslip.Tunnel.StoreByte | SE/ContikiOS/contiki/tools/tunslip6.c:294-295 | the store is below 2000 in every reachable state, and a full buffer is dropped |
| Tunslip.Tunnel.SerialToTun | SE/ContikiOS/contiki/tools/tunslip6.c:157-318 | the goto loop with its pushed-back ESC and unchecked first read is the decoder run on the bytes available |
| Tunslip.Tunnel.SendTunPacket | SE/ContikiOS/contiki/tools/tunslip6.c:433-445 | the packet read is enqueued encoded and flushed once |
| Tunslip.Tunnel.Select | SE/ContikiOS/contiki/tools/tunslip6.c:947-998 | one pass of the select loop is one step of the state machine |
| Tunslip.Tunnel.Loop | SE/ContikiOS/contiki/tools/tunslip6.c:931-1000 | the loop is the run of the state machine, so every law of a run holds of the arrays |
| Scat.PrintPayload | SE/ContikiOS/contiki/tools/scat.c:159-195 | the nested loops print the payload bytes of the stream, all of them and in order, until the line ends |
| Scat.FramesArePayload | SE/ContikiOS/contiki/tools/tunslip6.c:191-295 | tunslip6's decoder without limit keeps every payload byte, in its frames or its buffer |
| Scat.DecodersAgree | SE/ContikiOS/contiki/tools/scat.c:163-194 | on every byte stream scat prints the frames of tunslip6's unlimited decoder run together, and the frame still open |
| Scat.DecodersAgreeBelowLimit | SE/ContikiOS/contiki/tools/scat.c:163-194 | the same for the decoder with its limit, as long as no frame reaches 2000 bytes |
| Ifconf.Accumulate | SE/ContikiOS/contiki/tools/tunslip6.c:627-643 | for every string the loop stays inside a[8] and leaves the groups, index and elision mark of the scan |
| Ifconf.ShiftInPlace | SE/ContikiOS/contiki/tools/tunslip6.c:645-653 | the in-place loop is the shift, round by round |
| Ifconf.ParseAddress | SE/ContikiOS/contiki/tools/tunslip6.c:620-653 | the whole block, for every string |
| Ifconf.ShiftClosed | SE/ContikiOS/contiki/tools/tunslip6.c:646-653 | what each slot holds after any number of rounds, overlapping moves included |
| Ifconf.ExpandsExactly | SE/ContikiOS/contiki/tools/tunslip6.c:629-653 | for every address with "::", m groups before it (none counting as one) and n after: the result is the expansion of section 2.2 of RFC 4291 if and only if n = 0, or m+n = 8 and all n are zero, or m+n = 7 and the last is zero, or m+n <= 6 and the first m+2n-8 are zero |
| Ifconf.ExpandsHandled | SE/ContikiOS/contiki/tools/tunslip6.c:629-653 | the shapes right for all digits are n = 0, and m+n <= 6 with m+2n <= 8; every other shape fails for all groups after "::" that begin and end non-zero |
| Ifconf.FullAddress | SE/ContikiOS/contiki/tools/tunslip6.c:645-653 | eight groups without "::" come out with the last one cleared, so right if and only if it was zero |
| Ifconf.FullAddressFails | SE/ContikiOS/contiki/tools/tunslip6.c:645-653 | 1:1:1:1:1:1:1:1 comes out as 1:1:1:1:1:1:1:0 |
| Ifconf.ShortAddressFails | SE/ContikiOS/contiki/tools/tunslip6.c:629-653 | 1::2:3:4:5:6 comes out as 1:0:2:3:4:0:5:6 |
| Polygon.GetBounds | SI/eProtectFinal/assets/js/gmaps.js:1923-1936 | the box holds every vertex and lies inside every box that does |
| Polygon.RayLoop | SI/eProtectFinal/assets/js/gmaps.js:1955-1969 | the loop with j behind i toggles once per crossing of the closed path |
| Polygon.ContainsLatLng | SI/eProtectFinal/assets/js/gmaps.js:1941-1973 | the answer is yes if and only if the number of paths containing the point is odd, early exit or not |
| Polygon.OnePath | SI/eProtectFinal/assets/js/gmaps.js:1952-1969 | a single path decides alone |
| Polygon.ContainingConcat | SI/eProtectFinal/assets/js/gmaps.js:1952-1969 | two sets of paths together contain a point if and only if exactly one of them does |
| Polygon.CrossingSymmetric | SI/eProtectFinal/assets/js/gmaps.js:1963 | the crossing computed from either end of an edge is the same |
| Polygon.CrossingBetween | SI/eProtectFinal/assets/js/gmaps.js:1963 | a crossing lies between the latitudes of its edge |
| Polygon.StraddleEven | SI/eProtectFinal/assets/js/gmaps.js:1962 | a closed path passes any longitude an even number of times |
| Polygon.OutsideBox | SI/eProtectFinal/assets/js/gmaps.js:1945-1947 | outside a box around the vertices the ray loop alone answers no, for every set of paths |
| Polygon.ReverseInvariant | SI/eProtectFinal/assets/js/gmaps.js:1958-1969 | reversing a path changes no answer |
| Polygon.RotateInvariant | SI/eProtectFinal/assets/js/gmaps.js:1956-1968 | starting a path at another vertex changes no answer |
| Polygon.CutLaw | SI/eProtectFinal/assets/js/gmaps.js:1958-1969 | cutting a path along any chord gives two paths whose parities make up its own, for every point |
| Polygon.FanLaw | SI/eProtectFinal/assets/js/gmaps.js:1958-1969 | a path contains a point if and only if an odd number of its fan triangles do |
| Polygon.TriangleRight | SI/eProtectFinal/assets/js/gmaps.js:1958-1969 | in a triangle, points with positive barycentric coordinates are inside and points with a negative one are not |
| Convex.ConvexExactly | SI/eProtectFinal/assets/js/gmaps.js:1958-1969 | on a strictly convex path, for every point of the plane: inside if and only if no edge has the point on its outer side, some edge passes its longitude, and it is not on the edge that passes it to the left |
| Convex.ConvexPolygon | SI/eProtectFinal/assets/js/gmaps.js:1941-1973 | the same of containsLatLng on a polygon of one strictly convex path |
| Convex.ConvexRight | SI/eProtectFinal/assets/js/gmaps.js:1958-1969 | on a strictly convex path, points strictly on the inner side of all edges are inside, and points strictly on the outer side of one are not |
| Convex.ConvexEitherWay | SI/eProtectFinal/assets/js/gmaps.js:1958-1969 | the same for vertices listed the other way round |
| Convex.TriangleExactly | SI/eProtectFinal/assets/js/gmaps.js:1958-1969 | the same for every triangle, sides and corners included |
| UartBuffer.RingBuffer.Reset | SE/UART_multiplex_PIC18F67J94/UART_Buffering.c:31-34 | nothing is unread |
| UartBuffer.RingBuffer.AppendBuffer | SE/UART_multiplex_PIC18F67J94/UART_Buffering.c:48-54 | adds a byte to at most 62 unread ones, and empties a buffer of 63 |
| UartBuffer.RingBuffer.GetNext | SE/UART_multiplex_PIC18F67J94/UART_Buffering.c:56-66 | takes the oldest unread byte, or gives 0 and changes nothing |
| UartBuffer.RingBuffer.DataAvailable | SE/UART_multiplex_PIC18F67J94/UART_Buffering.c:68-81 | zero if and only if nothing is unread; the number unread if and only if it does not wrap; 128 minus it otherwise |
| UartBuffer.InitBuffers | SE/UART_multiplex_PIC18F67J94/UART_Buffering.c:20-29 | unread bytes of all four buffers turn to zeros and stay unread |
| UartBuffer.Run | SE/UART_multiplex_PIC18F67J94/UART_Buffering.c:31-66 | any list of operations on the array gives the unread bytes and results of the run the laws are about |
| UartBuffer.NewestModulo | SE/UART_multiplex_PIC18F67J94/UART_Buffering.c:48-66 | in every run the unread bytes are the newest, as many as were appended and not taken modulo 64 |
| UartBuffer.FaithfulExactly | SE/UART_multiplex_PIC18F67J94/UART_Buffering.c:48-66 | buffer and unbounded queue agree throughout a run if and only if fewer than 64 bytes are ever waiting |
| UartBuffer.FirstInFirstOut | SE/UART_multiplex_PIC18F67J94/UART_Buffering.c:48-66 | what GetNext returned, followed by what is unread, is what was appended, in order |
| UartBuffer.RingInOrder | SE/UART_multiplex_PIC18F67J94/UART_Buffering.c:48-66 | the ring does the same below 64 waiting bytes |
| Functions.Scan | SE/main_base/src/utils/functions.cpp:179-183 | the scan with its flag stops at the first occurrence, or reports none |
| Functions.FirstIsLeftmost | SE/main_base/src/utils/functions.cpp:77-86 | that occurrence is the leftmost, none is missed, and the empty key is never found |
| Functions.KeyAbsent | SE/main_base/src/utils/functions.cpp:174-189 | a key that stands nowhere yields the empty string |
| Functions.UString.Replace | SE/main_base/src/utils/functions.cpp:73-93 | exactly the leftmost occurrence is replaced |
| Functions.CopyValue | SE/main_base/src/utils/functions.cpp:186 | the third loop copies up to the closing quote or NUL, whatever the length |
| Functions.UString.GetJsonData | SE/main_base/src/utils/functions.cpp:174-189 | the scan and three loops compute the field, or tell that they would leave the string |
| Functions.OverrunExactly | SE/main_base/src/utils/functions.cpp:185 | on every text the parser reads behind the terminator if and only if the key occurs, and after it there is no NUL and no colon with a quote behind it |
| Functions.OverrunHappens | SE/main_base/src/utils/functions.cpp:185 | a concrete line, newline included, on which it does |
| Functions.RoundTrip | SE/main_base/src/utils/functions.cpp:174-189 | for every flat record, whatever the line holds behind it, a plain value is returned whole when the key's text first occurs as the key |
| Functions.RoundTripRecord | SE/main_base/src/utils/functions.cpp:174-189 | that holds when some character of the key is no punctuation, is new in the key, and is in no pair before it |
| Functions.NextField | SE/main_base/src/utils/functions.cpp:174-189 | when the key's text first occurs up to a place inside another pair's value with no colon behind it there, the value of the pair after that is returned |
| Lines.AtoiRoundTrip | SE/main_base/src/uart_com.cpp:120-127 | atoi reads back every number written in decimal |
| Lines.AtoiText | SE/main_base/src/uart_com.cpp:120-127 | atoi skips spaces, heeds one sign and stops at the first character that is no digit |
| Lines.ReportRoundTrip | SE/main_base/src/uart_com.cpp:112-131 | every sensor report is read back as it was written, whatever its three numbers and whatever follows it on the line, as the newline does |
| Lines.CommandLine | SE/main_base/src/uart_com.cpp:115-147 | lines are told apart by the first letter of their command |
| Lines.BadgeLine | SE/main_base/src/uart_com.cpp:132-136 | a badge line gives its key |
| Base.UartThread.constructor | SE/main_base/src/uart_com.cpp:25-39 | run up to its loop, ending in a forced attempt to connect, whenever that returns |
| Base.UartThread.SocketSend | SE/main_base/src/uart_com.cpp:165-180 | sends when connected, and reconnects on failure, in every state and environment in which the call returns |
| Base.UartThread.SocketConnect | SE/main_base/src/uart_com.cpp:202-220 | the 10-second gate, the attempt and the greeting |
| Base.UartThread.ConnectNow | SE/main_base/src/uart_com.cpp:204-216 | resets the clock, connects, and counts or clears failures, in every environment |
| Base.UartThread.SocketGet | SE/main_base/src/uart_com.cpp:182-199 | data only over a live connection; a failure reconnects |
| Base.UartThread.ProcessLine | SE/main_base/src/uart_com.cpp:112-150 | a report updates its sensor and is forwarded; lock and unlock are forwarded; a line that makes the code leave its text or the sensor list has no outcome |
| Base.UartThread.ProcessSocket | SE/main_base/src/uart_com.cpp:84-110 | pings are answered, one pong per ping is accepted, names go to untyped sensors; a name for a sensor outside the list has no outcome |
| Base.UartThread.PingTimer | SE/main_base/src/uart_com.cpp:62-77 | the ping decision and the time-out |
| Base.UartThread.Pass | SE/main_base/src/uart_com.cpp:44-81 | one pass of the loop, whenever it has an outcome |
| Base.UartThread.Run | SE/main_base/src/uart_com.cpp:44-81 | the loop is the run of passes, whenever that returns, so every law of a run holds of the fields |
| Base.EveryRun | SE/main_base/src/uart_com.cpp:44-81 | in every run that returns pings are answered, timed out or outstanding, and more than 5 s apart; unforced attempts to connect come more than 10 s after the one before; the error counter is 0 or 1 |
| Base.StalePingCleared | SE/main_base/src/uart_com.cpp:69-77 | a ping outstanding for more than 2 s is settled by the next pass that returns |
| Base.NestsExactly | SE/main_base/src/uart_com.cpp:165-220 | the calls of socket_send and socketConnect use up 2n units of fuel if and only if at each of n levels Send fails, the gate is open on the clock reset one level above, and Connect succeeds |
| Base.RunOutcome | SE/main_base/src/uart_com.cpp:44-81 | what a run leads to does not depend on the fuel, as long as it is enough |
| Base.CalmExactly | SE/main_base/src/uart_com.cpp:165-220 | every call of socket_send returns, in every state, if and only if no chain of connections is endless |
| Base.CalmPassExactly | SE/main_base/src/uart_com.cpp:44-81 | where no chain of connections is endless, a pass returns if and only if the line and the message it acts on stay inside text and list |
| Base.CalmRuns | SE/main_base/src/uart_com.cpp:44-81 | and then every run from the start returns, for any inputs that do |
| Base.PromptNests | SE/main_base/src/uart_com.cpp:165-220 | with prompt connections and greetings no chain is endless, and a failed send reconnects once at most |
| Base.SlowNests | SE/main_base/src/uart_com.cpp:165-220 | with a clock that advances 4 seconds a call, connections that succeed and messages that fail, the call never returns, whatever the fuel |
| Base.RunShows | SE/main_base/src/uart_com.cpp:119-129 | in every run that returns each sensor shows the status of its last report, sent or lost |
| Base.RunSettles | SE/main_base/src/uart_com.cpp:102-127 | in every run that returns a sensor that has a type keeps it, and its name, for good |
| StationLog.RunForwards | SE/main_base/src/uart_com.cpp:115-147 | in every run that returns, the lines forwarded, sent or lost, are exactly the reports, locks and unlocks read, in order |
| StationLog.PassTexts | SE/main_base/src/uart_com.cpp:44-81 | the messages of a pass, in order, are its line if it is one of those, a PONG for a PING received, and at most one PING |
| StationLog.RunPings | SE/main_base/src/uart_com.cpp:63-67 | in every run that returns, each ping decision is followed at once by PING, which stands nowhere else |
| StationLog.PingFires | SE/main_base/src/uart_com.cpp:62-67 | a pass that begins with no ping outstanding, more than 5 s after the clock was reset, makes a ping decision |
| StationLog.PongsExactly | SE/main_base/src/uart_com.cpp:89-94 | a pong is accepted in a pass if and only if one is received while a ping is outstanding |
| StationLog.ClockResets | SE/main_base/src/uart_com.cpp:62-94 | pings, pongs and time-outs reset the ping clock, and nothing else does |
| StationLog.StartForces | SE/main_base/src/uart_com.cpp:25-39 | a run starts with a forced attempt to connect, no ping outstanding and the sensors given |
| StationLog.ConnectGreets | SE/main_base/src/uart_com.cpp:202-220 | an attempt is made if and only if it is forced or 10 s have passed, and a successful one is followed by the greeting |
| StationLog.ConnectDecides | SE/main_base/src/uart_com.cpp:204-218 | a refused attempt leaves no connection, one accepted and greeted leaves one, and both reset the clock |
| StationLog.OfflineTries | SE/main_base/src/uart_com.cpp:79-80 | a pass that begins offline, more than 10 s after the last attempt, makes another |
| StationLog.SendTaken | SE/main_base/src/uart_com.cpp:165-180 | a message Send takes leaves the connection as it is, and is logged as sent when Send is done |
| StationLog.SendBreaks | SE/main_base/src/uart_com.cpp:168-172 | after a Send that fails only an attempt brings the connection back |
| StationLog.Drops | SE/main_base/src/uart_com.cpp:59-74 | the same after an invalid socket, a failed receive or a ping that times out |
| StationLog.ReceiveReconnects | SE/main_base/src/uart_com.cpp:187-191 | a receive that fails is followed at once by an attempt when the gate is open |
| StationLog.IdlePass | SE/main_base/src/uart_com.cpp:44-81 | a connected pass with nothing to do changes nothing |
| StationLog.RunErrors | SE/main_base/src/uart_com.cpp:206-215 | the error counter is the number of attempts refused since the last one accepted, modulo 2 |
| StationLog.PassSensors | SE/main_base/src/uart_com.cpp:102-127 | a pass sets type and status of a sensor by its line, and its name by a message if it has no type then |
| StationLog.RunSensors | SE/main_base/src/uart_com.cpp:119-127 | in every run that returns a sensor has the first type and the last status reported, and updatedData is set if and only if a report told another status than the one shown |
| Server.Sockets.OnConnect | SI/eProtectFinal/config/sockets.js:51-81 | a known Sigfox goes online, is published and bound to the session; an unknown one changes nothing |
| Server.Sockets.OnDisconnect | SI/eProtectFinal/config/sockets.js:31-49 | the session's Sigfox goes offline and is published |
| Server.Sockets.OnUpdate | SI/eProtectFinal/config/sockets.js:84-124 | creates the device, or saves and publishes a changed state, or does nothing |
| Server.Sockets.ServeAll | SI/eProtectFinal/config/sockets.js:31-124 | the requests of any sessions, in any order, change the tables as the run of events the laws are about |
| Server.FindUnique | SI/eProtectFinal/config/sockets.js:88 | with one record per owner and device the query finds that record |
| Server.UpdateSets | SI/eProtectFinal/config/sockets.js:88-120 | an update keeps one record per owner and device, sets its own device's state, and leaves every other as it was |
| Server.UpdateTypes | SI/eProtectFinal/config/sockets.js:92-107 | a new device has the type reported, and no type changes after that |
| Server.UpdatePublishes | SI/eProtectFinal/config/sockets.js:88-120 | a new device is not published; one that changes state is, with its own type; one that does not change is not |
| Server.UpdatingSets | SI/eProtectFinal/config/sockets.js:84-124 | an update of a session reaches the device of the Sigfox it is bound to, with state and type; an unbound session changes nothing |
| Server.ConnectingBinds | SI/eProtectFinal/config/sockets.js:51-81 | a session that connects is bound to the first row with its identifier; other sessions keep theirs |
| Server.HandleOnline | SI/eProtectFinal/config/sockets.js:31-81 | an event sets the row it speaks of on- or offline and publishes exactly that; other events leave the rows alone |
| Server.OnlineExactly | SI/eProtectFinal/config/sockets.js:31-81 | after every run a Sigfox is online as the last event on it says, or as at the start |
| Server.SigfoxCoherent | SI/eProtectFinal/config/sockets.js:31-81 | a copy of the Sigfox table with all later publications applied equals the table after every run |
| Server.HandleCoherent | SI/eProtectFinal/config/sockets.js:84-124 | a handler publishes a device exactly when it changed one that existed, and the publication carries the change |
| Server.Coherent | SI/eProtectFinal/config/sockets.js:107-115 | a snapshot with all later publications applied equals the table's rows after every run |
| Mirror.ReportKeeps | SI/eProtectFinal/bridge.js:45-55 | a relayed report takes effect on its device alone, behind everything delivered before |
| Mirror.StepKeeps | SI/eProtectFinal/bridge.js:30-55 | every step of station, lossy line, bridge and server that returns keeps order, uniqueness and the mirrored states |
| Mirror.PassSends | SI/eProtectFinal/bridge.js:30-55 | every message sent in a pass goes on the line behind those already there |
| Mirror.GreetingBinds | SI/eProtectFinal/config/sockets.js:51-81 | a greeting delivered binds the session to the station's Sigfox, which goes online |
| Mirror.ReportArrives | SI/eProtectFinal/bridge.js:45-55 | a report delivered in session brings its state into the table |
| Mirror.GreetedReportArrives | SI/eProtectFinal/bridge.js:30-55 | so do a greeting and the report behind it |
| Mirror.LastDeliveredIs | SI/eProtectFinal/config/sockets.js:103-107 | the report whose state a device has is the highest-numbered one delivered |
| Mirror.MirrorSafety | SE/main_base/src/uart_com.cpp:119-131 | in every run that returns, in any environment and from any table, each device has the state of the last report delivered, or the one it began with; deliveries are reports in the order made, records are unique, and table and station agree when the latest report was delivered |

## Left out

- Tunslip.Tunnel.SerialToTun: verbosity levels 2, 3, 5 and above, which empty the buffer after a printable line, and the Linux build only.
- Tunslip.Tunnel.EndFrame: what becomes of a frame (tun device, console, MAC set-up) besides the answer to "?P"; a frame is output when it ends.
- Tunslip.Tunnel.Select: the length of the delay between packets, which is a given truth value, and signals; an interrupted select is a pass in which nothing is ready. Errors of select and of the tun device are not part of this model.
- Scat.PrintPayload: the choice between printing a byte as it is and in hexadecimal.
- Ifconf.ParseAddress: the link-local address printed from the groups, and the rest of ifconf, which runs shell commands.
- Polygon.ContainsLatLng: floating-point rounding, the antimeridian, and the geometry of google.maps.LatLngBounds, which is not part of this model beyond a planar box.
- UartBuffer.RingBuffer: interrupts; each operation is one step.
- Base.UartThread.ProcessLine: what the program does once jsonData has left the string or a sensor number is outside 0 to 9, which the code does not check; the alarm view's calls; int overflow in atoi.
- Base.UartThread.ProcessSocket: the same for a name with such a number.
- Base.UartThread.SocketGet: the received text; what it says is given. The receive buffer's missing terminator is not part of this model.
- Base.Char: plain char is taken as unsigned, as on the base station's ARM processor.
- Server.Sockets: errors from the database, records saved from a copy that went stale, and handlers interleaving between query and save.
- Mirror.Delivered: the JSON text of a report, which is its three numbers here; several messages in one `data` event, or one in several; lines cut or run together on the way.
- The photo viewer, drawing, serial port set-up, tun allocation, option parsing, the Sails framework's configuration, the older handlers under SI/eProtect, and the vendored browser code: user interface, wiring or code from elsewhere.
