# Verification of the RPC framework

A Dafny model of a small C RPC framework with its own text protocol (`doc/protocal.txt`), and proofs about it. Three layers
are modelled and then composed.

* **Framing.** Requests and responses are printed into message vectors, sent with short writes, received into a growing buffer and
  parsed in place by a reader that keeps a saved head between reads (`src/rpc_conn.c`, `src/rpc_request.c`,
  `src/rpc_response.c`, `src/rpc_common.c`).
* **The call protocol.** Callers push requests, the writer thread pops, numbers and sends them, the server answers each
  connection in order, the receiver finds the call by its number, makes the callback and frees the number
  (`src/rpc_client.c`, `src/rpc_thread.c`, `src/rpc_sessionpool.c`).
* **The data structures on the heap.** The chained hash table that grows through a list of primes, with its iterator, and the
  queues that draw their nodes from one free list (`src/hashtable.c`, `src/hashtable_itr.c`, `src/rpc_queue.c`,
  `src/rpc_async_queue.c`, `src/rpc_array.c`).

The main results, each for all inputs and all runs:

1. `Reader.ChunkIndependence`, `Reader.NothingAfterStray`: however a prefix of a stream of messages is cut into reads, the callbacks
   dispatch exactly the messages complete in it and keep a state that depends on the prefix alone, if and only if no read hits the stray
   line feed described below; after such a read nothing is dispatched any more. `ServerLoop.ServeConnection` and
   `ClientLoop.ServeConnection` carry this over to the code on buffers, and `Receiving.NothingLost` to responses that are refused.
2. `ProtocolText.RequestIsText`, `ProtocolText.ReplyIsText`, `ProtocolText.TextIsRequest`, `ProtocolText.TextIsReply`: what is printed is the
   text of the protocol, and that text is read back field by field.
3. `CallProtocol.CallbacksMatch`, `CallProtocol.ExactlyOnePlace`, `CallProtocol.CallsComplete`: over every interleaving in which the answers
   carry the numbers of their requests each call is in exactly one place, gets the reply of the handler to its own input, once, in order,
   and gets it after a number of steps known in advance. `CallProtocol.SafeIffAllReach` says that the condition is exact.
4. `EndToEnd.Refinement` and `Realisation.RunRealised`: whichever services are called, the undisturbed runs on bytes are the runs on
   messages, in both directions, and no others are (`Disturbance.RunRefinedIffUndisturbed`). So what holds of the protocol holds on bytes
   (`EndToEnd.CallsThroughBytes`), and so does what goes wrong (`Realisation.WrongCallbackOnBytes`, `Realisation.FirstCallOnBytes`,
   `Realisation.ReplyLeftBehind`). Without new calls the system on bytes comes to rest (`EndToEnd.Descends`).
5. `Threads.AnswersAreSteps`, `Threads.CallbackIsSteps`, `Writer.WriterThread.Turn`: what the server, the receiver and the writer do in
   place are steps of the protocol.
6. `HashtableRuns.Replay`, `Rehash.MoveAll`, `Rehash.SiftAll`, `HashtableItr.Sweep`: the table agrees with a finite map over every run,
   both ways of growing keep the entries, and a walk that deletes meets every entry once.
7. `QueueRuns.Replay`, `QueueRuns.FirstInFirstOut`, `ItemQueue.ExactlyOnePlace`: queues that share a free list are sequences over every
   run, and no node is lost.

## How the model is laid out

`Wire`, `Tokens`, `Frame`, `HeadDetection` and `Reader` say on byte sequences what lines, numbers, heads, messages and the incremental
reader mean; `ProtocolText` has the text of the messages to the letter. `HeadLines`, `Connection`, `ObjectPool`, `Packets`, `ServerLoop`, `ClientLoop`, `SendLoop`, `SessionPool` and `Writer`
are the imperative code on buffers, arrays and objects; each method is proved to do what the functions say. `Chains`, `Rehash`,
`Hashtable`, `HashtableItr`, `HashtableRuns`, `ItemQueue` and `QueueRuns` are the linked structures. `Service` is what a server answers;
`CallProtocol` is the protocol as a state machine over its atomic steps, one for each region under a lock; `Threads` ties the callbacks to
those steps; `EndToEnd` is the whole on bytes, `Realisation` has the runs on bytes behind the runs on messages, `Disturbance` what a cut-off
message leads to, and `Receiving` what becomes of the responses behind a refused one. `Seqs` holds what is said of sequences in general.
`dafny verify dfyconfig.toml` checks everything.

A byte is a Dafny `char`. `int` fields are bounded by `INT_MIN` and `INT_MAX` where they are printed or scanned, and conversions that
truncate are written out (`Wire.ToInt`, `Frame.ToSize`). Failing allocations, the amounts that the kernel reads and writes, the
byte that memory holds behind the received window, and the stale number in a recycled request are parameters.

## Where the code departs from its intent

The code is modelled as it is; each lemma named here says exactly when it does what it is for.

* The head detection reckons the rest of the window one byte short for every pair of line feeds and looks at the byte behind it
  (`src/rpc_conn.c:128-140`); `HeadDetection.DetectedMeaning` says what it sees in any window. It is
  exact for heads with LF, except that a window that ends right behind its first line is taken for a head when memory holds a line feed
  there (`HeadDetection.DetectedExactly`); the parser then refuses the line (`Reader.FirstLineAlone`, `Reader.StrayExample`).
  The callback returns and the connection stays open, but the next line to arrive is the one with the number: it is refused as a
  first line, loses bytes to NULs and stays in front, so nothing is dispatched any more (`Reader.DeafDrain`,
  `Reader.NothingAfterStray`).
* Heads with CR LF are seen one byte late (`HeadDetection.DetectedLateWithCR`); they parse to the same fields
  (`ProtocolText.AnyLineBreaks`).
* A reply to a request for an unknown service repeats the number answered last (`src/rpc_conn.c:205`). The replies match if and only if
  every request is for a registered service or repeats that number (`Service.RepliesMatch`,
  `CallProtocol.SafeIffAllReach`); `CallProtocol.WrongCallback` and `Realisation.WrongCallbackOnBytes` are runs in which a caller gets
  somebody else's reply.
* A response whose number has an empty slot, or none at all, crashes the client: a null pointer is followed (`src/rpc_conn.c:264-265`), or
  an assertion fails (`src/rpc_sessionpool.c:52-53`); one whose slot holds another number is refused (`src/rpc_conn.c:265-268`).
  `CallProtocol.StaleReply` says which of these becomes of the reply to a request for an unknown service, if and only if. On a fresh
  connection it has the number -1, so the first call crashes the client if and only if its service is not registered
  (`CallProtocol.FirstCall`, `Realisation.FirstCallOnBytes`).
* A refused response ends the callback, and the responses read together with it wait in the window until something else arrives on that
  connection (`Realisation.LeftBehind`, `Realisation.StaysStopped`, `Receiving.NothingLost`); `Realisation.ReplyLeftBehind` is a run after
  which the complete reply to another call waits like this. At rest only such responses are left (`EndToEnd.LeftAtRest`).
* When the peer closes, the read that sees it returns failure although it may have read whole messages before (`src/rpc_conn.c:91-94`):
  they are never dispatched (`ServerLoop.CbReqRead`, `ClientLoop.CbRspRead`).
* The key of a service is printed into 255 characters (`src/rpc_conn.c:196-197`). Two services and methods share it if and only
  if they are the same or their full keys agree in 254 characters (`Service.KeysTellServices`), which happens
  (`Service.LongKeysCollide`).
* A failing read closes the connection and then reports success (`src/rpc_conn.c:99-101`), so the callback goes on with a null pointer
  (`src/rpc_conn.c:288`); when bytes were left in the window the outcome is `Unspecified`.
* The send loop stops when a short write ends at the end of a vector (`src/rpc_conn.c:364-369`). It sends everything if and only if that
  does not happen (`SendLoop.Vectors.SendMessage`, `SendLoop.CutShortExample`); afterwards the connection carries the text of no messages
  (`Disturbance.RefinesIffUndisturbed`).
* The test on the first word joins its two conditions with `&&` (`src/rpc_request.c:67`, `src/rpc_response.c:68`). A line that begins with
  a wrong word is refused if and only if it does not have three words (with an `@` in the second one, for requests):
  `Frame.WrongFirstWord`, `Frame.WrongFirstWordOfStatus`. A token that was never stored is read if and only if the line has no word, or has
  one or two, the first being the right one and, for requests, the second one, if any, holding an `@`: `Frame.RequestLineByWords`,
  `Frame.StatusLineByWords`. The reader then has the outcome `Unspecified`, exactly when such a line stands in front of what it takes for a
  head (`Reader.LostExactly`, `Reader.NotLost`); one such input is the first word and an empty line
  (`Reader.UnsetTokenExample`).
* `doc/protocal.txt` calls the key of a service `servicename@methodname`; the code uses method and then service
  (`src/rpc_conn.c:196-197`), and so does `Service.Key`.

## Model

| member | source | states |
|---|---|---|
| Wire.ScanDec | src/rpc_request.c:96 | `%d` gives back every `int` that `%d` printed, whatever follows, as long as that is not a digit |
| Wire.ScanFieldDec | src/rpc_request.c:165-169 | a printed `key:number` line scans to its number |
| Wire.DecimalText | src/rpc_request.c:165-168 | `%d` prints decimal digits, the highest first, with a minus in front of a negative number |
| Wire.ScanIntMeaning | src/rpc_request.c:96 | `%d` takes white space, a sign, zeros and a number, whatever follows that is not a digit |
| Wire.ScanIntNone | src/rpc_request.c:96 | and it refuses every text that has no digit there; `strtol` then gives 0 |
| Wire.ToIntMeaning | src/rpc_request.c:96 | a scanned number keeps its lower 32 bits, and one beyond a `long` becomes the nearest `long` first |
| Wire.StripCRMeaning | src/rpc_request.c:60-63 | a CR in front of the line feed belongs to the line break if and only if something stands before it |
| Tokens.TokenizeMeaning | src/rpc_common.c:54-76 | the tokens are the first maximal runs of non-spaces in order, and nothing else is: an if and only if against an independent definition |
| Tokens.TokensAreUnique | src/rpc_common.c:54-76 | that definition leaves no choice |
| Tokens.TokensInside | src/rpc_common.c:54-76 | tokens are runs of the string, in order and apart |
| Tokens.TokenizeCommand | src/rpc_common.c:54-76 | the loop in place returns those tokens and overwrites with NUL exactly the spaces that end a returned token |
| Tokens.ThreeWords | src/rpc_common.c:54-76 | three words separated by spaces are read back as they are |
| Frame.RequestLineRoundTrip | src/rpc_request.c:64-80 | a printed request line parses to its method, service and version |
| Frame.StatusLineRoundTrip | src/rpc_response.c:65-74 | a printed status line parses to its code and phrase, for every defined code |
| Frame.FirstRoundTrip | src/rpc_request.c:161-163 | the same for either kind of first line |
| Frame.FieldsRoundTrip | src/rpc_request.c:87-149 | the sequence, length and empty lines parse to their numbers and end where they end |
| Frame.ToSizeMeaning | src/rpc_request.c:118 | a negative length is a large one |
| Frame.HeadRoundTrip | src/rpc_request.c:50-154 | parsing a printed head gives back every field and consumes exactly the head, whatever follows |
| Frame.RequestLineByWords | src/rpc_request.c:66-80 | a request line is accepted if and only if it has three words, whatever the first one is, and an `@` in the second; and a token that was never stored is read if and only if it has no word, or the right first one and one or two words in all, the second with an `@` |
| Frame.WrongFirstWord | src/rpc_request.c:67-70 | a request line with a wrong first word is refused if and only if it does not have three words with an `@` in the second |
| Frame.StatusLineByWords | src/rpc_response.c:67-74 | a status line is accepted if and only if it has three words, whatever they are; and reads a token that was never stored if and only if it has no word, or the right first one and fewer than three |
| Frame.WrongFirstWordOfStatus | src/rpc_response.c:68-71 | a status line with a wrong first word is refused if and only if it does not have three words |
| Frame.FirstWordIgnored | src/rpc_request.c:67 | a printed request line keeps its meaning when any other word stands in front |
| ProtocolText.RequestIsText | src/rpc_request.c:156-173 | a printed request is `CALL method@service RPC/1.0`, `seq:` and the number, `body-len:` and the length of the body, an empty line and the body, to the letter |
| ProtocolText.CodeText | src/rpc_common.c:12-16 | numbers and phrases of the status lines, to the letter |
| ProtocolText.ReplyIsText | src/rpc_conn.c:385-403 | a printed reply is `RPC/1.0` with number and phrase of the code, and the rest as in a request |
| ProtocolText.TextIsRequest | src/rpc_request.c:50-154 | that text at the front of a window is dispatched as a request with just these fields, whatever follows |
| ProtocolText.TextIsReply | src/rpc_response.c:51-149 | the same for replies |
| ProtocolText.AnyLineBreaks | src/rpc_request.c:55-149 | a head parses to its fields whichever of its four lines end with LF and which with CR LF |
| ProtocolText.WrongSeqLine | src/rpc_request.c:87-103 | a second line that does not begin with `seq:` is refused and consumed, with the first one |
| ProtocolText.WrongLengthLine | src/rpc_request.c:109-125 | so is a third line that does not begin with `body-len:` |
| ProtocolText.WrongEmptyLine | src/rpc_request.c:131-153 | a fourth line with something in it is refused and stays |
| HeadDetection.ScanShift | src/rpc_conn.c:115-151 | the verdict depends on the bytes of the window and the one behind it, not on where they lie in memory |
| HeadDetection.DetectedMeaning | src/rpc_conn.c:115-151 | for any window: a head is seen if and only if there is an empty line short of the bytes overlooked, one for every pair of line feeds before, or a stray line feed at their edge |
| HeadDetection.DetectedExactly | src/rpc_conn.c:115-151 | LF heads are seen if and only if the empty line has arrived or a stray line feed follows the first line |
| HeadDetection.DetectedLateWithCR | src/rpc_conn.c:115-151 | CR LF heads are seen if and only if one byte more than the head has arrived, or on a stray line feed |
| Reader.HeadSeen | src/rpc_conn.c:115-151 | on a prefix of a printed message: seen exactly when the head is complete, or on a stray line feed |
| Reader.FullTurn | src/rpc_conn.c:162-191 | a complete message at the front of the window is dispatched with its own fields, and exactly the rest is left |
| Reader.HoldTurn | src/rpc_conn.c:174-177 | with part of the body missing the head is kept with all its fields and the body bytes stay |
| Reader.PartialTurn | src/rpc_conn.c:167-180 | an incomplete head stays untouched, except on a stray line feed, which is an error |
| Reader.FirstLineAlone | src/rpc_request.c:82-108 | a first line on its own is consumed and refused |
| Reader.ProgressMeaning | src/rpc_conn.c:153-217 | the count of messages done after `n` bytes is the number of messages that lie wholly in them |
| Reader.DrainBoundary | src/rpc_conn.c:153-217 | from a message boundary a callback dispatches what is complete and keeps the rest |
| Reader.DrainContinues | src/rpc_conn.c:153-217 | from the state after any `n0` bytes, more bytes lead to the messages and the state that belong to all of them |
| Reader.CourseKept | src/rpc_conn.c:158-213 | every turn of the loop keeps the result of the whole callback within reach and makes progress |
| Reader.DeafDrain | src/rpc_conn.c:168-170 | once a damaged or foreign line stands in front, a callback dispatches nothing and leaves such a window, whatever arrives behind it |
| Reader.ServeMore | src/rpc_conn.c:153-217 | the callbacks of a connection compose: one more callback starts from what the others left, also after a parse error |
| Reader.ServeFrom | src/rpc_conn.c:153-217 | any sequence of reads from any point of the stream: right until the first stray read; from there the connection dispatches nothing, however long it goes on |
| Reader.ChunkIndependence | src/rpc_conn.c:153-282 | over all callbacks of a connection the messages dispatched and the state kept depend only on the bytes received, if and only if no read hits a stray line feed |
| Reader.NothingAfterStray | src/rpc_conn.c:153-217 | otherwise exactly the messages complete at the first stray read are dispatched, and none of the later ones, although the connection stays open |
| Reader.StrayExample | src/rpc_conn.c:131-134 | a request line received on its own is refused or not, depending on the byte behind it |
| Reader.LostExactly | src/rpc_request.c:66-80 | a turn reads such a token if and only if a head is seen and its first line has such words |
| Reader.NotLost | src/rpc_conn.c:166-180 | without a line, or with a saved head, no turn does |
| Reader.UnsetTokenExample | src/rpc_request.c:67-73 | the first word alone and an empty line are enough, for requests and for responses |
| HeadLines.CloseLine | src/rpc_request.c:55-64 | in place: one byte becomes NUL, the one that makes the line a C string without its CR |
| HeadLines.ScanLine | src/rpc_request.c:87-103 | in place: yields the number of the line if the line scans, and moves past it either way |
| HeadLines.SplitLine | src/rpc_request.c:55-66 | in place: the tokens point to C strings that are the words of the line |
| HeadLines.MarredIs | src/rpc_common.c:54-76 | the bytes that closing and splitting a line overwrite are those of `Frame.Marred` |
| HeadLines.ParseRequestLine | src/rpc_request.c:51-86 | in place: refuses, accepts or runs wild as `Frame.ReadRequestLine` says; the pointers find method, service and version inside the line; a refused line is left with exactly the NULs of `Frame.Marred` |
| HeadLines.ParseStatusLine | src/rpc_response.c:52-80 | the same for status lines |
| Connection.Conn.Compact | src/rpc_conn.c:70-74 | the unread bytes move to the front unchanged, the bytes behind them stay |
| Connection.Conn.Grow | src/rpc_conn.c:82-87 | doubling keeps the unread bytes |
| Connection.Conn.MakeRoom | src/rpc_conn.c:77-89 | a full buffer is doubled, if it has not been four times and there is memory |
| Connection.Conn.ReadFromConn | src/rpc_conn.c:69-112 | the window becomes the old window followed by the bytes of the single reads; all reads but the last were interrupted or filled their room; the call ends with the bytes if and only if the last one was short or the buffer is full for good, with the peer gone if and only if it gave 0, with a failure if and only if it failed |
| Connection.ReadsToldBy | src/rpc_conn.c:104-108 | when the first read is short the call ends there with just its bytes |
| Connection.FindHead | src/rpc_conn.c:115-151 | the loop computes the recursive definition of the detection |
| Connection.Conn.HeadReceived | src/rpc_conn.c:167 | the answer is that for the window and the byte behind it |
| Connection.Conn.ParseField | src/rpc_request.c:87-108 | one field read from the window, which moves past it; bytes outside the line stay |
| Connection.Conn.ParseFields | src/rpc_request.c:87-136 | the stages after the first line, with the position at which each failure leaves the window |
| ObjectPool.RpcArray.Get | src/rpc_array.c:35-44 | pops the last element |
| ObjectPool.RpcArray.Index | src/rpc_array.c:46-56 | the element at the index, or null beyond the end |
| ObjectPool.RpcArray.Add | src/rpc_array.c:58-76 | appends, also across a doubling; without memory the contents stay |
| ObjectPool.FreeList.Take | src/rpc_request.c:17-31 | the object taken was on the list and in nobody's hands |
| ObjectPool.FreeList.Give | src/rpc_request.c:33-38 | only an object in use can be given back; it is then on the list, once, if the list has room or can grow, and is released otherwise |
| Packets.PacketNew | src/rpc_request.c:17-31 | the object is from the free list unless that is empty, and is now in use |
| Packets.PacketFree | src/rpc_response.c:34-39 | the object leaves use exactly once |
| Packets.PacketCopyHead | src/rpc_request.c:40-48 | the copy describes the same head whatever happens to the buffer |
| Packets.Parse | src/rpc_request.c:50-154 | the in-place parser meets `Frame.ParseHead` in all outcomes, positions and fields, and leaves the window of `Frame.AfterError` after a failure; an object is out only when a result refers to it |
| Packets.SaveHead | src/rpc_conn.c:174-176 | the saved copy replaces the parsed object, which goes back to the list |
| Packets.TakeHeld | src/rpc_conn.c:181-194 | a saved head gets its body exactly when all of it is there |
| Packets.TakeParsed | src/rpc_conn.c:168-177 | a turn on the window: message, saved head or error as `Reader.TakeTurn` says |
| Packets.Acquire | src/rpc_conn.c:159-195 | one turn up to the dispatch is a `Reader.TakeTurn`; objects come from the free list or malloc, none is in two places |
| Service.AnswersAreGood | src/rpc_conn.c:385-403 | every reply is a message that the response parser reads back, and curr_seq stays an `int` |
| Service.KeyText | src/rpc_conn.c:196-199 | the stored key is method, `@` and service, or their first 254 characters |
| Service.KeysTellServices | src/rpc_conn.c:196-199 | two methods and services have the same stored key if and only if they are the same or both full keys agree in the 254 characters that fit |
| Service.LongKeysCollide | src/rpc_conn.c:196-199 | a service name one character longer than fits has the key of another one |
| Service.AnswerAllJoin | src/rpc_conn.c:195-206 | answering two batches of requests one after the other is answering them in one |
| Service.RepliesMatch | src/rpc_conn.c:195-206 | replies answer the requests one to one and in order: each has code and output of the handler called with the body of its request, or the line and text of not found, and its number, or the one before; the numbers are right if and only if every service is registered or the number repeats |
| ServerLoop.Dispatch | src/rpc_conn.c:195-206 | the service under the stored key is called with the body bytes of the request and sets curr_seq; its code and output are the reply; otherwise the reply is not found with the number answered last |
| ServerLoop.TurnOnce | src/rpc_conn.c:158-212 | one turn with its reply; the request object is back on the list or saved |
| ServerLoop.DrainWindow | src/rpc_conn.c:158-213 | the loop dispatches what `Reader.Drain` says and replies to all of it in order |
| ServerLoop.CbReqRead | src/rpc_conn.c:153-217 | the whole callback on old window and new bytes, with every way in which the read ends; when the first read is short what is complete is dispatched; no request object is lost, doubled or given back while in use |
| ServerLoop.ServeConnection | src/rpc_conn.c:153-217 | all callbacks of a connection together are `Reader.Serve` on all that arrives, and the replies those to all messages dispatched; it is closed only by a read that finds the peer gone or fails |
| ClientLoop.DeliverAppend | src/rpc_conn.c:250-277 | delivering responses in several batches is delivering them in one |
| ClientLoop.Hand | src/rpc_conn.c:257-271 | a response goes to the call in the slot it names if that has the same number, and empties the slot; another number ends the callback, and an empty slot or a number outside the table crashes; otherwise nothing changes |
| ClientLoop.Finish | src/rpc_conn.c:264-277 | the callback, the slot freed and the object given back, or neither when the response goes wrong |
| ClientLoop.TurnOnce | src/rpc_conn.c:224-277 | one turn with its callback |
| ClientLoop.DrainWindow | src/rpc_conn.c:224-278 | the loop takes and delivers what `ClientLoop.Receive` says turn by turn, and leaves its slots and its window, also behind a refused response |
| ClientLoop.CbRspRead | src/rpc_conn.c:219-282 | the whole callback on old window and new bytes, with every way in which the read ends; when the first read is short what is complete is delivered; no response object is lost unless one went wrong |
| ClientLoop.ReceiveIsDelivery | src/rpc_conn.c:224-278 | the responses taken are the first ones that `Reader.Drain` dispatches; the callbacks made and the slots are those of delivering all of these up to one that goes wrong |
| ClientLoop.ServeConnection | src/rpc_conn.c:219-282 | all callbacks of a connection together are `ClientLoop.ReceiveAll` on all that arrives: a refused response ends one callback and the next goes on behind it; only a crash, an unset token, or a read that finds the peer gone or fails ends them |
| ClientLoop.ReceiveAllIsServe | src/rpc_conn.c:219-282 | as long as no response goes wrong they deliver what `Reader.Serve` dispatches and keep its state |
| Receiving.ReceiveChannel | src/rpc_conn.c:219-282 | one callback on a stream: the next responses are taken in order, all complete ones unless one goes wrong, and the rest stays with the reader |
| Receiving.NothingLost | src/rpc_conn.c:219-282 | over all reads of a stream: the responses are taken in order, a refused one delays those behind it to the next callback, none is lost before a crash, and the others have their effect |
| SendLoop.Vectors.AddIov | src/rpc_conn.c:335-347 | appends a vector, also across a doubling |
| SendLoop.Vectors.Skip | src/rpc_conn.c:358-362 | skipping whole vectors leaves the same bytes described and the same question whether the end of a vector was hit |
| SendLoop.Vectors.Account | src/rpc_conn.c:357-369 | after `n` bytes the vectors left describe what is left; the loop goes on exactly when `n` ends inside a vector |
| SendLoop.Vectors.SendMessage | src/rpc_conn.c:349-383 | bytes sent and bytes left make up the original for every schedule; all is sent if and only if no short write ends at the end of a vector; the loop ends |
| SendLoop.CutShortExample | src/rpc_conn.c:364-369 | a write that ends with the first line cuts every message short |
| SendLoop.HeadVectorsText | src/rpc_request.c:156-173 | the vectors of a message are its text |
| SendLoop.RequestVectors | src/rpc_request.c:161-169 | the three vectors of the head of a request, to the letter |
| SendLoop.RequestFormat | src/rpc_request.c:156-173 | those vectors and the input, unless its pointer is null, are added behind those already there |
| SendLoop.SendResponse | src/rpc_conn.c:385-403 | what is sent and what is left make up the text of the reply with this code, number and output |
| SessionPool.Pool.Insert | src/rpc_sessionpool.c:27-49 | the number is the first empty slot, or the first of a second half when there is none, over uncleared memory; it was not in use, and every other number keeps its item |
| SessionPool.Pool.Change | src/rpc_thread.c:189 | giving the request its number changes what its own slot shows and no other |
| SessionPool.Pool.Get | src/rpc_sessionpool.c:51-59 | a number in use finds what was inserted under it |
| SessionPool.Pool.Remove | src/rpc_sessionpool.c:61-68 | frees that slot and no other |
| SessionPool.NumbersDiffer | src/rpc_sessionpool.c:27-49 | two insertions without a removal get two numbers, whatever junk the table holds |
| Writer.WriterThread.Number | src/rpc_thread.c:188-189 | the call gets a number that no other call has |
| Writer.SendRequest | src/rpc_thread.c:197-199 | what is sent and what is left make up the text of the request with the input of its caller |
| Writer.WriterThread.SendOut | src/rpc_thread.c:191-199 | that text goes out on the next connection in turn and nothing on the others, all of it unless a write is cut short |
| Writer.WriterThread.Turn | src/rpc_thread.c:185-200 | a turn on arrays and vectors is four steps of the call protocol, and sends the text of the request with its new number and its input |
| Writer.TurnIsSteps | src/rpc_thread.c:185-200 | the values that a turn leaves are those after the four steps |
| Threads.AnswersAreSteps | src/rpc_conn.c:195-206 | answering a batch of requests as the server's callback does is one `Serve` for each, and leaves its replies behind those on their way |
| Threads.DeliveriesAreSteps | src/rpc_conn.c:264-277 | delivering a batch of responses as the client's callback does is a `Fire` and a `Release` for each, up to the one that goes wrong |
| Threads.CallbackIsSteps | src/rpc_conn.c:219-282 | so the whole callback: its calls, slots, the responses left on the connection, refusal and crash are those of a run of the protocol |
| CallProtocol.LaneMeaning | src/rpc_thread.c:191-193 | round robin gives connection `c` exactly every n-th call, in order of issue |
| CallProtocol.AllocateKeeps | src/rpc_sessionpool.c:27-49 | taking a slot keeps every call's own slot, also across growth |
| CallProtocol.AssignKeeps | src/rpc_thread.c:189 | so does writing the number into the request afterwards |
| CallProtocol.SendKeeps | src/rpc_thread.c:191-199 | so does sending, which keeps every connection's order |
| CallProtocol.ServeKeepsIff | src/rpc_conn.c:195-206 | an answer keeps the invariant if and only if the service is registered or the number repeats |
| CallProtocol.FireKeeps | src/rpc_conn.c:250-269 | the response at the front of a connection finds its own call |
| CallProtocol.StepKeepsIff | src/rpc_conn.c:195-270 | every step keeps the invariant, answers on the same condition and the others always |
| CallProtocol.FlightsDiffer | src/rpc_thread.c:185-200 | two messages in flight belong to two calls |
| CallProtocol.SafeIffAllReach | src/rpc_conn.c:195-206 | a run keeps the invariant throughout if and only if every answer carries the number of its request |
| CallProtocol.KnownServicesReach | src/rpc_conn.c:200-203 | runs in which only registered services are called do |
| CallProtocol.FiredInOrder | src/rpc_conn.c:269 | no call fires twice, and the calls of a connection fire in the order of issue |
| CallProtocol.CallbacksMatch | src/rpc_conn.c:250-277 | over every interleaving in which all answers carry the numbers of their requests: no response refused, no crash, each callback with code and output of the handler called with the input of its own call, none twice, in order, numbers in flight distinct although they are used again |
| CallProtocol.KnownServicesMatch | src/rpc_conn.c:200-203 | so over every interleaving when only registered services are called |
| CallProtocol.ExactlyOnePlace | src/rpc_thread.c:185-200 | every issued call is in exactly one of pending, writer's hand, one connection, done |
| CallProtocol.StepWorks | src/rpc_thread.c:185-200 | every step but a new call lessens the steps left, by one as long as the invariant holds; a new call adds seven |
| CallProtocol.NeverStuck | src/rpc_thread.c:185-200 | while work is left and no response has gone wrong some step is possible, unless the table of numbers is full for good |
| CallProtocol.CallsComplete | src/rpc_conn.c:250-277 | after exactly the steps left, every call has had its callback once |
| CallProtocol.OwnReply | src/rpc_conn.c:200-203 | a call for a registered service is answered with code and output of its handler called with its body, called back with that, and its slot freed |
| CallProtocol.StaleReply | src/rpc_conn.c:204-206 | the reply to an unknown service, whose number is the one answered last: it goes to the call that waits under this number, is refused if and only if the slot holds a request with another number, and crashes the client if and only if there is none |
| CallProtocol.StepKeepsShape | src/rpc_thread.c:185-200 | calls pending and in hand have been issued, the table keeps a size, the index in hand lies in it: over every run, whatever the services called |
| CallProtocol.NobodyBlocks | src/rpc_thread.c:185-200 | a step of one thread leaves the others able to make theirs, short of a crash |
| CallProtocol.WrongCallback | src/rpc_conn.c:204-206 | a run, for any two services, in which a caller gets the reply to another call |
| CallProtocol.FirstCall | src/rpc_conn.c:204-206 | the first call on fresh connections gets its reply, or crashes the client, the latter if and only if its service is not registered |
| CallProtocol.BeforeRefusalReached | src/rpc_thread.c:188-189 | a run, for any registered and any unregistered service, after which a stale reply meets a slot just taken, with another call's reply behind it |
| EndToEnd.ChannelSends | src/rpc_conn.c:349-383 | sending a message appends its text to the bytes to come |
| EndToEnd.ChannelReads | src/rpc_conn.c:90-103 | reading moves bytes from the wire to the reader |
| EndToEnd.ChannelTurn | src/rpc_conn.c:158-213 | a turn dispatches the next message if and only if it is complete with the reader, and fails if and only if it hits a stray line feed |
| EndToEnd.AnyPart | src/rpc_conn.c:90-92 | of what can be read or written any part can be, and all of it |
| EndToEnd.FormatSimulates | src/rpc_thread.c:191-198 | printing a request is the sending step |
| EndToEnd.WriteSimulates | src/rpc_conn.c:356-369 | a short write inside a vector is no step at all |
| EndToEnd.StepKeepsSound | src/rpc_conn.c:195-206 | every message in flight can be printed and read back, over every run of printable requests, whatever the services called |
| EndToEnd.ServerTurnSimulates | src/rpc_conn.c:158-212 | a server turn is an answer, or no step; it fails exactly on a stray read; also when replies carry wrong numbers |
| EndToEnd.ClientTurnSimulates | src/rpc_conn.c:224-277 | a client turn is a response handed over, refused or crashing, or no step, and the callback goes on only behind one handed over; it fails exactly on a stray read |
| EndToEnd.Simulates | src/rpc_conn.c:153-282 | every undisturbed action on bytes is a step on messages or none |
| EndToEnd.Refinement | src/rpc_conn.c:153-282 | every undisturbed run of printable requests on bytes refines a run of the call protocol, whichever services are called |
| EndToEnd.LeftAtRest | src/rpc_conn.c:265-268 | at rest no request is on its way, and responses are left only behind one that went wrong, where they lie with the client |
| Realisation.StepRealised | src/rpc_conn.c:153-282 | every step of the protocol is what some undisturbed actions on bytes do |
| Realisation.RunRealised | src/rpc_conn.c:153-282 | every run of the protocol with printable requests is the shadow of an undisturbed run on bytes |
| Realisation.WrongCallbackOnBytes | src/rpc_conn.c:204-206 | an undisturbed run on bytes, for any registered and any unregistered service, in which a caller gets the reply to another call |
| Realisation.FirstCallOnBytes | src/rpc_conn.c:204-206 | an undisturbed run on bytes in which the first call gets its reply, or crashes the client, the latter if and only if its service is not registered |
| Realisation.LeftBehind | src/rpc_conn.c:265-268 | responses read together with one that goes wrong in front of them stay in the client's window, in full |
| Realisation.StaysStopped | src/rpc_conn.c:265-268 | what lies with a client whose callback has ended stays there over every run without another read on that connection |
| Realisation.ReplyLeftBehind | src/rpc_conn.c:265-268 | an undisturbed run on bytes after which the complete reply to a call for a registered service lies undelivered behind a refused one |
| Disturbance.StreamsDiffer | src/rpc_conn.c:364-369 | no messages have the text of given ones without a proper end of the last |
| Disturbance.ActionKeepsSending | src/rpc_conn.c:349-383 | what the writer and the servers have yet to send is part of one message, over every undisturbed run |
| Disturbance.RefinesIffUndisturbed | src/rpc_conn.c:364-369 | after an action some sound state of the protocol tells what the system is doing if and only if the action is undisturbed: no write cuts a message off, no read is stray |
| Disturbance.RunRefinedIffUndisturbed | src/rpc_conn.c:153-383 | the same for every run at each of its points |
| EndToEnd.QuiescentIsComplete | src/rpc_conn.c:219-282 | with nothing on its way and nobody at work every call has had its callback once, if the invariant holds |
| EndToEnd.CallsThroughBytes | src/rpc_conn.c:153-282 | on bytes, when registered services are called: no reader fails, each callback with code and output of the handler called with the input of its own call, none twice, in order, none missing at rest |
| EndToEnd.Descends | src/rpc_conn.c:153-282 | every action but a new call brings the end nearer |
| EndToEnd.NeverStuck | src/rpc_conn.c:153-282 | short of rest some undisturbed action is possible, unless the table of numbers is full for good or the client has crashed |
| Chains.RowIsAcyclic | src/hashtable.c:170-175 | a chain that ends in null has no cycle |
| Chains.Unlink | src/hashtable.c:200 | taking an entry out of its chain changes that chain alone, by that entry |
| Chains.PushFront | src/hashtable.c:156-157 | putting an entry in front changes that chain alone |
| Rehash.MoveAll | src/hashtable.c:85-95 | the fresh table holds the same entries, each in the bucket for the new size |
| Rehash.SiftAll | src/hashtable.c:107-121 | so does the enlarged one, although entries move into buckets not yet scanned; the scan ends |
| Rehash.ChainsNeverRepeat | src/hashtable.c:83-122 | no bucket holds an entry twice |
| Rehash.PlansAgree | src/hashtable.c:83-122 | the two ways of growing agree bucket by bucket, up to order |
| Hashtable.PrimesIncrease | src/hashtable.c:15-23 | the listed sizes increase |
| Hashtable.SizesDouble | src/hashtable.c:15-23 | the sizes double, give or take two hundred, from 53 to 1610612741 |
| Hashtable.NoSmallDivisor | src/hashtable.c:15-23 | no size has a prime divisor below 20 |
| Hashtable.LimitMeaning | src/hashtable.c:52 | the limit is reached with 13 entries for 20 buckets |
| Hashtable.Create | src/hashtable.c:29-53 | the smallest listed size above `minsize`, for every `minsize` up to 2^30; null beyond, or without memory |
| Hashtable.Hashtable.Expand | src/hashtable.c:71-126 | the same entries in a table of the next size; without memory, or at the last size, nothing changes, and the length is always the listed one |
| Hashtable.Hashtable.Insert | src/hashtable.c:137-159 | one more key in the map, or none without memory; the table takes the next size exactly when it has 13 entries for 20 buckets, there is a next size and memory for it; with memory for expansions no entry but the last comes to a table so full, until the last size |
| Hashtable.Hashtable.Search | src/hashtable.c:163-177 | the value of the key in the map, or null |
| Hashtable.Hashtable.Remove | src/hashtable.c:181-211 | the value of the key, which leaves the map |
| Hashtable.LimitGrows | src/hashtable.c:124 | the load limit grows with the size |
| HashtableRuns.Replay | src/hashtable.c:137-211 | over any run of insertions with new keys, searches and removals the table agrees with a finite map, result by result, and keeps below 13 entries for 20 buckets before the last one |
| HashtableItr.HashtableIterator | src/hashtable_itr.c:12-35 | everything is still to go |
| HashtableItr.Itr.Advance | src/hashtable_itr.c:54-88 | one entry less to go, the one it stood at; the fields describe a position of the table |
| HashtableItr.Itr.Remove | src/hashtable_itr.c:99-124 | the same, and that entry has left the table |
| HashtableItr.Itr.SearchFor | src/hashtable_itr.c:128-154 | stands at the entry with the key if and only if there is one |
| HashtableItr.Sweep | src/hashtable_itr.c:53-124 | a walk that removes what it is told to and advances otherwise meets every key exactly once, with its value, and leaves exactly the others in the map |
| ItemQueue.LinkedIsAcyclic | src/rpc_queue.c:68-99 | a queue's chain has no cycle |
| ItemQueue.NewSlab | src/rpc_queue.c:34-42 | 32 new nodes: one for the caller, the others in a row in front of the free list |
| ItemQueue.Slab.ItemNew | src/rpc_queue.c:23-47 | the node was on the free list or is new, and is now in no queue |
| ItemQueue.Slab.ItemFree | src/rpc_queue.c:49-58 | the node is back on the free list |
| ItemQueue.Slab.NewQueue | src/rpc_queue.c:60-66 | one more empty queue on the same free list |
| ItemQueue.Slab.Enqueue | src/rpc_async_queue.c:43-52 | the node is last in that queue; every other queue and the free list keep their nodes |
| ItemQueue.Slab.Dequeue | src/rpc_queue.c:70-78 | the first node leaves that queue alone |
| ItemQueue.Slab.Push | src/rpc_queue.c:87-99 | the queue's contents grow by the element at the end, no node is lost, and nodes that other operations hold stay in their hands |
| ItemQueue.Slab.Pop | src/rpc_queue.c:68-85 | the oldest element, and its node is free again, the others in hand stay; nothing happens on an empty queue |
| ItemQueue.Slab.WaitPop | src/rpc_async_queue.c:55-87 | the blocking pop returns the oldest of what was there and what others pushed meanwhile; it waits only while there is nothing, for any number of idle wake-ups and nodes in other hands |
| ItemQueue.ExactlyOnePlace | src/rpc_queue.c:23-99 | every node ever allocated is on the free list, in the hands of an operation, or in exactly one queue |
| QueueRuns.Perform | src/rpc_queue.c:68-99 | one operation changes the queue it names as its sequence does, and no other |
| QueueRuns.Replay | src/rpc_queue.c:68-99 | over any run of pushes and pops on any number of queues that share a free list each behaves as a sequence, result by result |
| QueueRuns.FirstInFirstOut | src/rpc_queue.c:68-99 | over any run: what has been popped from a queue and then what is left in it is what it held and then what has been pushed |

## Left out

- Sockets, libev, `accept` and `connect`, eventfd wake-ups, thread creation, and what `rpc_conn_close` frees: system calls. Reads
  deliver any positive amount, are interrupted any finite number of times and can fail; writes take any positive amount.
- The free list of connections (`src/rpc_conn.c:40-67`): its pop takes from another index than its push fills.
- `rpc_str_code` and the search in the code table (`src/rpc_common.c:20-52`): a fixed table of codes and phrases instead.
- Timed pop, destruction of queues and tables, and the timeout of synchronous calls: wall-clock time and shutdown.
- `src/rpc_hash.c`, `src/rpc_util.c` formatting, `src/rpc_base_thread.c`, `src/rpc_atomic.c`, the samples: wrappers and demos. `hash` is an
  arbitrary function of the key, keys are told apart by equality.
- Mutexes: each region under a lock is one atomic step. The reading of `item->data` after a node has been given back
  (`src/rpc_queue.c:80-81`, `src/rpc_async_queue.c:82-83`) belongs to the same step as the pop.
- Several client threads: they share nothing but the free lists, and the protocol is modelled for one of them.
- Handlers that reply never or more than once: every handler replies exactly once.
- `memcpy` on ranges that may overlap (`src/rpc_conn.c:72`) is a move that is safe for overlap, and the clearing of the enlarged table
  (`src/hashtable.c:106`) clears the new part.
- The upper half of a `size_t` into which `%d` stores (`src/rpc_request.c:118`) is zero.
- Rounding of the load factor: the limit is the exact ceiling of 13/20 of the size. Duplicate keys in the hash table, which its comment
  rules out.
- Failing `realloc` in `rpc_conn_addiov`, `rpc_sessionpool_insert` and `rpc_queue_item_new`: the code goes on without the memory.
- `rpc_request` and `rpc_response` objects share one class, `Packet`, as their parsers share all but the first line. On the client the
  requests that wait for a response are values; the object of a response that goes wrong is not given back, as in the code.
- ServerLoop.Dispatch: for a key of more than 255 characters `key[len]` lies behind the array (`src/rpc_conn.c:196-198`); the model keeps
  the 254 characters that were printed and not that write.
- ClientLoop.ServeConnection: nobody else takes or frees numbers between two callbacks of the connection; `Threads.CallbackIsSteps` places
  each callback among the other steps.
- Threads.CallbackIsSteps: the steps of one callback stand together, as the receiver makes them; other interleavings are those of
  `CallProtocol`.
- CallProtocol.NeverStuck: assumes room in the table of numbers or a table that can still double within an `int`.
