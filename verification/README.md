# A verified model of the WebSocket gateway

The gateway accepts WebSocket connections, takes HTTP/1.x request texts out of their messages,
forwards each request to an upstream server and sends the answer back as a text frame. While a
client is connected, a registry maps its ID to its socket, and a database table tells other servers
where the client is. This project models that logic in Dafny and proves what it keeps.

| file | what it models |
|---|---|
| `TextStream.dfy` | `>>`, `std::getline` and `read` on a string stream, with eofbit and failbit |
| `Decimal.dfy` | `std::to_string` and `std::stoi`, with their exceptions |
| `Delimited.dfy`, `Ipv4.dfy` | `split` and `isValidIPv4` |
| `HttpParser.dfy` | `createRequestFromBuffer` and `buildResponseStringBuffer`, with wrapping `size_t` arithmetic |
| `HttpRoundTrip.dfy`, `ResponseRoundTrip.dfy` | laws of the parser and the printer |
| `HeaderLoop.dfy` | the parser on texts of any lines, and on texts that end early |
| `CompactFields.dfy` | field lines without the space behind the colon |
| `Forwarding.dfy` | the header loop of `asyncHttpClient`, over an unordered map |
| `Reassembly.dfy`, `Listener.dfy` | `readMessage`, the coroutine and its completion handler, port rotation |
| `Gateway.dfy` | all sockets together: frames, pings and completions in any order |
| `Registry.dfy` | the client registry as atomic steps of any number of threads |
| `RegistryLaws.dfy`, `RegistryOrder.dfy`, `RegistryProgress.dfy`, `RegistryLifecycle.dfy` | its invariants, order, progress, and socket lives |

Main results:

- **Round trips with their exact conditions.** A printed well-formed request parses back to its
  words, its first-wins headers and its body exactly when it has a header and its first
  `Content-Length` (as `std::stoi` reads it) is the body's length, or there is neither that header
  nor a body. With a decimal length this holds up to 2147483647. Without headers the blank line is
  itself taken for a header. For responses the condition covers every printable one and also
  involves the reason phrase: one without a visible character costs the first field, or, if there
  is none, the blank line, so that the parser goes on inside the body.
- **The printer is injective**, and for every buffer at all the parser's `substr` calls stay in
  range, although `npos + 2` wraps around.
- **Fragmentation is invisible.** Whatever happens on other sockets, with pings, pongs and
  completions anywhere in between, a request text cut into frames in any way is dispatched whole.
  If it has a header and declares its body, what is sent upstream for it, however the run goes on,
  is sent once and is this request: its words, version and body, the gateway's own fields with the
  ID of the client on that very socket, and nothing else but its clean fields.
- **Replies are conserved, and are the right ones.** Every dispatched message waits or gets exactly
  one reply on its own socket, exactly when no coroutine ends in an exception that is not a
  `std::exception`; and from every state that a run without one reaches, all messages can be
  answered. In every run the reply is the upstream server's response as the printer writes it, with
  its version, status and reason, if there was one, and otherwise "error".
- **The header loop on any text.** Every text behind a start line is a sequence of lines that are
  taken and one that is not; each of the former becomes a field, the latter is gone, and what
  follows is unread. An empty line always ends the block, and a last line without LF still counts.
- **Forwarded headers do not depend on the hash map's order** exactly when no two surviving headers
  clash.
- **The registry map is linearizable**, in an order that respects real time; map and table agree
  for every settled ID if its writes succeed in the order of the map updates, which callers can see
  to by not letting operations on an ID overlap. Disciplined runs from the start are given, for any
  ID, sockets and rows, in which a write fails, or comes late, or the close of an old socket evicts
  a newer one; and so is the exact condition for agreement and for a socket to be in the map.
- **The space behind the colon.** A field block in the sense of section 5 of RFC 9112 needs none; the
  code looks for `": "`. A line without it ends the block, and the lines behind it are taken for the
  body text; as the first line it is stored as a header instead, called like the whole line, and the
  loop goes on. It is proved exactly which of these blocks and requests are still read as meant.
  White space beyond that one space is not removed: it stays in the value. Nor does the parser
  ignore case, as section 5.1 of RFC 9110 asks: only a field called exactly `Content-Length` counts.

A character stands for a byte; the laws hold for any character set that contains the bytes.

Concurrency: one atomic statement at a time, in any order. The flag is acquired and released with
acquire and release ordering, so that the map updates of different threads are ordered by it; each
database write is one step. An event that is not possible in a state leaves it unchanged, so that
every list of events is a run.

## Model

| member | source | states |
|---|---|---|
| TextStream.Extract | src/utilis/HttpParser.h:59 | a word read by `>>` is non-empty and free of white space; otherwise the read fails and the variable keeps its value; errors arise only when the text is used up |
| TextStream.SpaceCodes | src/utilis/HttpParser.h:59 | which six characters are white space |
| TextStream.ExtractConserves | src/utilis/HttpParser.h:59 | only leading white space is lost, and everything behind the word stays unread |
| TextStream.ExtractAt | src/utilis/HttpParser.h:59 | a word between white space is taken whole, whatever follows |
| TextStream.GetLine | src/utilis/split.h:14 | line, delimiter and remainder make up the text; the line has no delimiter; failure exactly at the end; each success shortens the text |
| TextStream.GetLineAt | src/utilis/HttpParser.h:65-66 | a terminated line is taken whole, whatever follows |
| TextStream.ReadBlock | src/utilis/HttpParser.h:87 | the block is the front of the unread text, as long as asked for or as possible |
| TextStream.InputStringStream.constructor | src/utilis/HttpParser.h:53 | the stream starts in front of the whole text, without error |
| TextStream.InputStringStream.ExtractWord | src/utilis/HttpParser.h:59 | position and error bits move as the specification of `>>` says |
| TextStream.InputStringStream.ReadLine | src/utilis/split.h:14 | position and error bits move as the specification of getline says; the result is the loop condition |
| TextStream.InputStringStream.Read | src/utilis/HttpParser.h:86-87 | the front of the buffer is overwritten by what could be read, the rest of it stays |
| Decimal.ToDecimal | src/utilis/HttpParser.h:30-32 | the numeral has the number's value and no superfluous zero |
| Decimal.Numerals | src/utilis/HttpParser.h:30-32 | how numbers are written: the ten digits, and one more digit for each factor of ten |
| Decimal.ValueOfNumeral | src/utilis/HttpParser.h:85 | a numeral has the value of its number, whatever zeros stand in front of it |
| Decimal.CanonicalIsPrinted | src/utilis/ipUtils.h:36-49 | every canonical numeral is the printed form of its value |
| Decimal.StoiOfDecimal | src/utilis/HttpParser.h:85 | a printed number converts back exactly up to 2147483647; beyond, the conversion throws |
| Decimal.StoiReads | src/utilis/HttpParser.h:85 | leading white space, a sign and trailing text do not change what is read; the range check is on the signed value, from -2147483648 to 2147483647 |
| Decimal.StoiRejects | src/utilis/HttpParser.h:85 | without a digit in front, or behind a leading sign, the conversion throws invalid_argument |
| Delimited.SplitString | src/utilis/split.h:9-19 | the loop returns the tokens of the text |
| Delimited.JoinSplit | src/utilis/split.h:9-19 | joining the tokens gives the text without one final delimiter; no token holds the delimiter; no tokens exactly for the empty text |
| Delimited.SplitJoin | src/utilis/split.h:9-19 | splitting a join of delimiter-free tokens returns them exactly when there are none or the last is not empty |
| Ipv4.IsValidIPv4 | src/utilis/ipUtils.h:17-53 | true exactly for four canonical decimals up to 255 joined by dots, with or without one final dot |
| Ipv4.CheckOctets | src/utilis/ipUtils.h:29-52 | the checks accept exactly four acceptable octets |
| Ipv4.CheckOctet | src/utilis/ipUtils.h:36-49 | the checks of one octet, of which none can throw |
| Ipv4.FourOctets | src/utilis/ipUtils.h:24-52 | the test on the tokens decides the language of addresses, both ways |
| Ipv4.OctetIsNumeral | src/utilis/ipUtils.h:36-49 | an octet is accepted exactly if it is the printed form of a number up to 255 |
| Ipv4.AddressIsUnique | src/utilis/ipUtils.h:17-53 | an address spells one quadruple of numbers |
| HttpParser.SubstrNeverThrows | src/utilis/HttpParser.h:68-74 | for every non-empty line both `substr` calls stay in range, also with `npos + 2` wrapped to 1, and cut out the name and the value |
| HttpParser.CutHeaderLine | src/utilis/HttpParser.h:73-74 | the wrapped size arithmetic computes name and value |
| HttpParser.ReadHeaders | src/utilis/HttpParser.h:61-79 | the loop terminates and computes the specified header map and stream |
| HttpParser.FillBody | src/utilis/HttpParser.h:83-88 | the body or exception the specification asks for |
| HttpParser.CreateRequestFromBuffer | src/utilis/HttpParser.h:52-91 | the imperative parser computes ParseRequest, on which the laws below are proved |
| HttpParser.BuildResponseStringBuffer | src/utilis/HttpParser.h:23-40 | the appending loop computes PrintResponse, on which the laws below are proved |
| HttpRoundTrip.FieldLineParts | src/utilis/HttpParser.h:68-74 | a printed field line is cut back into its name and value; the dropped character is its CR |
| HttpRoundTrip.LineParts | src/utilis/HttpParser.h:68-74 | the same with any last character in place of the CR: it is the one that is dropped |
| HttpRoundTrip.BareSeparator | src/utilis/HttpParser.h:68-74 | a line that ends with its separator has an empty value |
| HttpRoundTrip.FirstWinsIs | src/utilis/HttpParser.h:75 | the header map has each name's first value, said without a fold |
| HttpRoundTrip.ParsePrintedFields | src/utilis/HttpParser.h:66-79 | the header loop reads back a printed field block and stops in front of the body |
| HttpRoundTrip.BlockEnds | src/utilis/HttpParser.h:66-79 | behind printed fields, and at an empty line also without any, the loop ends at the first line without ": ": that line is gone, and everything behind it is left for the body |
| HttpRoundTrip.FirstLineStored | src/utilis/HttpParser.h:68-75 | as the first line, a line without ": " becomes a header called like the line, with the line less its first and last character for a value, and the loop goes on |
| HttpRoundTrip.EmptyLineEnds | src/utilis/HttpParser.h:66 | an empty line ends the loop at once, as the first line too |
| HttpRoundTrip.StartLineAt | src/utilis/HttpParser.h:59-65 | two words and the first word of a later line are taken, the rest of that line is dropped, nothing more |
| HttpRoundTrip.RequestRoundTrip | src/utilis/HttpParser.h:52-91 | printing and parsing a well-formed request returns it exactly when it has a header and declares its body |
| HttpRoundTrip.ParsePrintedRequest | src/utilis/HttpParser.h:52-91 | the whole outcome, exceptions included, for any Content-Length |
| HttpRoundTrip.DecimalDeclares | src/utilis/HttpParser.h:84-87 | a decimal length declares its body exactly up to 2147483647 |
| HttpRoundTrip.DeclaredByName | src/utilis/HttpParser.h:84-87 | a body is declared exactly if the first field called "Content-Length", in this spelling, says its length, or there is no such field and no body |
| HttpRoundTrip.BlankLineBecomesHeader | src/utilis/HttpParser.h:66-75 | without headers the header map is never empty; without a body it is the one bogus header |
| HttpRoundTrip.ParsedBody | src/utilis/HttpParser.h:83-90 | for every buffer: throws exactly for an unusable or negative length, with the exception of the conversion or of the string; else the body has the declared length, and is the unread text, with a '0' in every place behind its end |
| HeaderLoop.LoopEnds | src/utilis/HttpParser.h:66-79 | for any lines without LF: those that are not empty and have a ": ", or come first, are taken and cut into fields; the first other one ends the loop and is gone; the rest is unread |
| HeaderLoop.LoopRunsOut | src/utilis/HttpParser.h:66-79 | for a text that ends before: a last line without LF is judged and taken like any other, and nothing is left |
| HeaderLoop.LoopForms | src/utilis/HttpParser.h:66-79 | every text is of one of these two kinds |
| HeaderLoop.WordsAnywhere | src/utilis/HttpParser.h:59-65 | three words with any white space around them are taken, across lines too, and the rest of the line of the third is dropped |
| HeaderLoop.EmptyBlock | src/utilis/HttpParser.h:52-91 | with an empty line behind the start line there is neither header nor body, whatever follows |
| HeaderLoop.TruncatedRequest | src/utilis/HttpParser.h:52-91 | a text that ends within its three words or on their line gives these words, no header and no body |
| CompactFields.CompactLine | src/utilis/HttpParser.h:68-74 | a field line without the space holds a ": " exactly if its value does, and what is then taken for its name is not a field name |
| CompactFields.LooseBlock | src/utilis/HttpParser.h:66-79 | a field block in which any lines lack the space is read as its first-wins map exactly if none does, or the first that does is not the first line, holds no other ": ", and from there on only names are repeated; in that case the body is looked for right behind that line |
| CompactFields.LooseRoundTrip | src/utilis/HttpParser.h:52-91 | a request of such lines is read as meant exactly if it has a field, its block is read as meant, its body is declared, and the text at which the loop stops begins like the body |
| CompactFields.LineWithoutSeparator | src/utilis/HttpParser.h:52-91 | the whole outcome, exceptions included, for a request whose block goes on with a line without ": " |
| CompactFields.CompactLengthIsLost | src/utilis/HttpParser.h:70-88 | a Content-Length without the space is not seen, and the body is empty |
| CompactFields.CompactLengthExample | src/utilis/HttpParser.h:70-88 | a request that declares five octets in this way, all of which are lost |
| ResponseRoundTrip.ResponseRoundTrip | src/utilis/HttpParser.h:23-91 | for every printable response: the parser recovers field map and body exactly when the fields it gets to see make up the map and declare the body; when it sees none, exactly without a body and either with nothing visible or with one lost field that looks like the bogus header |
| ResponseRoundTrip.VisibleReasonRoundTrip | src/utilis/HttpParser.h:23-91 | with a visible reason and a field, whatever their names: exactly when the body is declared |
| ResponseRoundTrip.ResponseStartLine | src/utilis/HttpParser.h:32-59 | the parser takes the version, the digits of the status and the first word of a visible reason; a reason without a visible character costs exactly the first field; without a field the third word is looked for in the body and the rest of its line is dropped |
| ResponseRoundTrip.StatusLineText | src/utilis/HttpParser.h:23-38 | the printed text, read without the parser: the version up to the first blank, the digits of the status up to the next, the reason up to the CR LF, and then the fields and the body |
| ResponseRoundTrip.VersionIsFormula | src/utilis/HttpParser.h:27-31 | both named versions agree with the general formula |
| ResponseRoundTrip.VersionInjective | src/utilis/HttpParser.h:27-31 | different versions print differently |
| ResponseRoundTrip.TailInjective | src/utilis/HttpParser.h:33-38 | equal field blocks and bodies come from equal field lists and bodies |
| ResponseRoundTrip.PrintResponseInjective | src/utilis/HttpParser.h:23-40 | equal output comes from one response only |
| Forwarding.LowerIgnoresCase | src/utilis/boostBeastClient.h:61 | names count as one field exactly if they agree up to the case of letters |
| Forwarding.SetHeaders | src/utilis/boostBeastClient.h:56-62 | the loop leaves the fields of some walk through the map that meets each header once |
| Forwarding.ForwardedIs | src/utilis/boostBeastClient.h:56-62 | which fields the loop leaves, said without an order |
| Forwarding.StampedIs | src/utilis/boostBeastClient.h:64-93 | the gateway's names carry the gateway's values, and no other field changes |
| Forwarding.ForwardingIsSafe | src/utilis/boostBeastClient.h:56-93 | every other field is a surviving client header, without CR and LF; every surviving name is there |
| Forwarding.OrderIrrelevant | src/utilis/boostBeastClient.h:56-93 | the forwarded fields are the same for all iteration orders exactly when no surviving headers clash |
| Forwarding.HeaderArrives | src/utilis/boostBeastClient.h:56-62 | the name of a clean client field that is not the gateway's arrives, and if no other header competes with it, with its first value, whatever else there is |
| Forwarding.BareRequestIsStampedOnly | src/utilis/boostBeastClient.h:56-65 | a request without headers and body is forwarded with the gateway's fields only |
| Reassembly.ReceiveAllIsCut | src/websocket/WebSocketListener.cpp:65-133 | the dispatched messages are the call sequence cut at its size-0 calls |
| Reassembly.SegmentsAreEndFree | src/websocket/WebSocketListener.cpp:69 | the cut removes the size-0 calls and nothing else |
| Reassembly.BytesAreConserved | src/websocket/WebSocketListener.cpp:81-83 | messages in order plus buffer are all bytes received |
| Reassembly.WholeMessage | src/websocket/WebSocketListener.cpp:127-129 | frames add up to the message however it was cut |
| Reassembly.CallsAccumulate | src/websocket/WebSocketListener.cpp:65-133 | calls of which none has size 0 dispatch nothing; those with a positive size add that much of their block to the buffer, those with a negative size nothing |
| Reassembly.CallsMakeMessage | src/websocket/WebSocketListener.cpp:65-133 | then a call with size 0, whatever its block, dispatches exactly what was received, and the buffer is empty |
| Listener.HandlerReplies | src/websocket/WebSocketListener.cpp:94-123 | the handler sends the printed response if there was one, nothing after a foreign exception, and otherwise "error"; an empty text would not be sent |
| Listener.RotateAllIs | src/utilis/boostBeastClient.h:44 | any number of rotations changes the last character only, to the one of 2345 that the last draw picks |
| Listener.RotationIsBounded | src/utilis/boostBeastClient.h:44 | the port's tens never change, its last digit is 2 plus the last draw modulo 4, a valid port stays valid |
| Listener.WebSocketListener.constructor | src/websocket/WebSocketListener.h:21-24 | a listener starts with an empty buffer |
| Listener.WebSocketListener.ReadMessage | src/websocket/WebSocketListener.cpp:65-133 | size 0 hands on the buffer and empties it; a positive size appends that much of the block; a negative size does nothing; all as Receive says |
| Listener.WebSocketListener.PrepareFields | src/utilis/boostBeastClient.h:56-71 | the fields before the connection, needing only the host |
| Listener.WebSocketListener.AsyncHttpClient | src/utilis/boostBeastClient.h:32-123 | the port rotates on every path; the client is sent the printed response, nothing, or "error", by the outcome; a request is handed to the socket exactly if parsing and connecting worked and no exception came first, with the stamped fields in some order |
| Listener.WebSocketListener.ChooseVersion | src/utilis/boostBeastClient.h:49-53 | the number under which the client's version is printed again, if it is HTTP/1.0 or HTTP/1.1, and that of HTTP/1.1 otherwise |
| Listener.RequestArrives | src/utilis/boostBeastClient.h:46-95 | what is sent for a printed request with a header and a declared body has its words, version and body and the gateway's fields; every other field is one of its clean fields, and each of their names is there, with its first value if nothing competes |
| Gateway.RunConserves | src/websocket/WebSocketListener.cpp:91-124 | in every run dispatched = waiting + answered + lost, tickets never shared, and lost = foreign exceptions |
| Gateway.ReplyConservation | src/websocket/WebSocketListener.cpp:91-124 | every message waits or has exactly one fitting reply on its socket, exactly when no foreign exception occurred |
| Gateway.AllGetAnswered | src/websocket/WebSocketListener.cpp:91-124 | after any run without a foreign exception, as many completions as there are waiting messages, with any other outcomes, leave every message answered exactly once |
| Gateway.RunReplies | src/websocket/WebSocketListener.cpp:91-124 | in every run the outcome of a message's exchange decides what was sent for it, once, on its socket, and whether it was forwarded |
| Gateway.RunForwards | src/websocket/WebSocketListener.cpp:91-93 | in every run each request sent upstream is that of one dispatched message, sent once, with its arrival time and the ID of the client on its socket; a reply other than "error" is sent only for a message that was forwarded |
| Gateway.RunOnSocket | src/websocket/WebSocketListener.cpp:65-133 | a socket's messages and buffer depend on its own calls alone |
| Gateway.PongsAnswerPings | src/websocket/WebSocketListener.cpp:23-33 | pings are answered with their payloads in order, pongs not at all |
| Gateway.EndToEnd | src/websocket/WebSocketListener.cpp:65-133 | from any reachable state: a request received in any calls without size 0, and one with it, is dispatched whole, amid anything else, and parses to the original exactly when it has a header and its body is declared |
| Gateway.EndToEndUpstream | src/websocket/WebSocketListener.cpp:65-133 | from any reachable state, and however the run goes on: what is sent upstream for a fragmented request with a header and a declared body is sent once, and is the client's request as RequestArrives says, with the ID of the client on this socket |
| Gateway.EndToEndReply | src/websocket/WebSocketListener.cpp:94-116 | and this very message waits until its completion, and then has had the one reply on its socket that its exchange asks for, unless it is lost to a foreign exception |
| Gateway.EndToEndResponse | src/websocket/WebSocketListener.cpp:94-116 | the client of a request that is answered upstream gets the printed response, from which fields and body can be read back if it has a field and a visible reason and declares its body |
| Registry.WebSocketComponent.constructor | src/websocket/WebSocketComponents.h:66-69 | an empty map and a clear flag, whatever rows the table has |
| Registry.WebSocketComponent.Call | src/websocket/WebSocketComponents.h:19 | an idle thread starts to spin |
| Registry.WebSocketComponent.TestAndSet | src/websocket/WebSocketComponents.h:20 | one turn of the spin loop is one step of the state machine |
| Registry.WebSocketComponent.UpdateClients | src/websocket/WebSocketComponents.h:21-44 | the map update is one step of the state machine |
| Registry.WebSocketComponent.Clear | src/websocket/WebSocketComponents.h:22 | clearing the flag is one step of the state machine |
| Registry.WebSocketComponent.WriteDatabase | src/websocket/WebSocketComponents.h:23-46 | the database write is one step; a failure changes no row |
| Registry.WebSocketComponent.Execute | src/websocket/WebSocketComponents.h:19-49 | any schedule on the object is a run of the state machine |
| RegistryLaws.ExclusiveKept | src/websocket/WebSocketComponents.h:20-22 | every step keeps: at most one thread inside, the flag set exactly then, and that thread the last to get it |
| RegistryLaws.AccountedKept | src/websocket/WebSocketComponents.h:19-49 | every step keeps: each operation is held by one thread or written once, never both |
| RegistryLaws.LinearKept | src/websocket/WebSocketComponents.h:19-49 | every step keeps: the map replays the performed operations, the table the successful writes |
| RegistryLaws.Linearizable | src/websocket/WebSocketComponents.h:20-45 | in every run: the map is the sequential replay in lock order, short of at most the one operation inside |
| RegistryLaws.UpToDateExactly | src/websocket/WebSocketComponents.h:19-49 | for a settled ID the map shows its last operation, and the table exactly if the last successful write stands for the same row |
| RegistryLaws.MapAndTableAgree | src/websocket/WebSocketComponents.h:19-49 | in every run map and table agree on a settled ID whose writes succeeded in lock order |
| RegistryLaws.RowTellsPresence | src/websocket/WebSocketComponents.h:19-40 | then the ID is in the map exactly when its row names the server, and otherwise the row is "NA" |
| RegistryOrder.AcquiredGrows | src/websocket/WebSocketComponents.h:20 | the order of the operations only grows at its end |
| RegistryOrder.RealTimeOrder | src/websocket/WebSocketComponents.h:19-49 | what a thread calls after another operation has returned comes behind it in the order that the map replays |
| RegistryOrder.SerialKept | src/websocket/WebSocketComponents.h:19-49 | every step keeps, if calls on an ID do not overlap: one thread busy with it, and its writes in the order of the tickets |
| RegistryOrder.OneAtATimeAgrees | src/websocket/WebSocketComponents.h:19-49 | in every run in which calls on an ID do not overlap and its writes succeed, map and table agree on it once it is settled |
| RegistryProgress.StepsAreBounded | src/websocket/WebSocketComponents.h:19-49 | in every run non-spinning steps done plus steps to come are four for each call |
| RegistryProgress.SomeStepIsEffective | src/websocket/WebSocketComponents.h:20-22 | while an operation is unfinished some thread can make progress |
| RegistryProgress.CanAlwaysFinish | src/websocket/WebSocketComponents.h:19-49 | from every reachable state a schedule of exactly the remaining steps finishes all operations, for any sequence of database answers |
| RegistryLifecycle.OrderlyKept | src/websocket/WebSocketListener.cpp:35-47 | the listeners' calling discipline keeps the operation sequence orderly |
| RegistryLifecycle.OrderlyReplay | src/websocket/WebSocketComponents.h:21-35 | an orderly replay never holds a socket behind its close |
| RegistryLifecycle.NoStaleSockets | src/websocket/WebSocketListener.cpp:35-201 | in every disciplined run the map holds no socket whose close has erased, and each entry's socket was added under its ID |
| RegistryLifecycle.ClosedIsAbsent | src/websocket/WebSocketListener.cpp:35-47 | in a disciplined run an ID whose sockets are all closed is not in the map, and its settled row is "NA" (or gone after a removal) |
| RegistryLifecycle.PassedForGood | src/websocket/WebSocketComponents.h:35 | a close that has erased has done so for the rest of the run |
| RegistryLifecycle.EntryExactly | src/websocket/WebSocketComponents.h:21-35 | a socket of a settled ID is in the map exactly if nothing was done to the ID after its add |
| RegistryLifecycle.AloneIs | src/websocket/WebSocketComponents.h:19-49 | what one operation does when nobody interferes |
| RegistryLifecycle.OvertakenWrite | src/websocket/WebSocketComponents.h:33-39 | for any ID, two sockets, two or more threads and any rows: a disciplined run with successful writes at whose end nothing is under way and the table says "NA" of the connected client |
| RegistryLifecycle.FailedWrite | src/websocket/WebSocketComponents.h:23-25 | a disciplined run from any rows without the server: after the failed insert the client is in the map only |
| RegistryLifecycle.StaleCloseEvicts | src/websocket/WebSocketComponents.h:33-37 | a disciplined run with successful, ordered writes at whose end a socket that was added and never closed is not in the map, and its row is "NA" |

## Left out

- Registry.WebSocketComponent.TestAndSet: nothing is promised to a single spinning thread, because the flag is not fair; progress is proved for the registry as a whole.
- HttpParser.CreateRequestFromBuffer: the line counter is unbounded (it is an int, and only compared with 1), and running out of memory for a long declared body is not modelled.
- Resolving, connecting, writing, reading and timeouts: the outcome of the exchange is a parameter; so are the random draw, the arrival time and the exceptions of Beast (unknown verbs, oversized fields).
- Beast's field container: `set` is a case-insensitive replacement; field order on the wire and the effect of `prepare_payload` on Transfer-Encoding are not part of this model, its Content-Length is.
- The reason phrase is the text that Beast's `reason()` returns, including its default for a status.
- The database driver, its queries and its connection: the table is a map from ID to host; a write succeeds or changes nothing.
- `sendTextMessageToClient` and `sendBinaryMessageToClient`, which nothing in the program calls.
- The branch for a missing ClientId, TLS, certificates, configuration, endpoints and process start-up.
- `SOCKETS`: the connection counter is only logged.
- Lifetimes of the references that a coroutine holds on its listener.
- Sending a request upstream and the end of its coroutine are one event of the gateway's state machine.
- Logging, and the rethrow of a foreign exception out of the completion handler: the message counts as lost.
