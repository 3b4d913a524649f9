# Algiz: models and proofs

Dafny models of the parts of Algiz that hold state across calls, threads or moves, with proofs of what
they keep. `dafny verify dfyconfig.toml` checks everything.

Code that updates fields is a class whose methods are proved against a function of the old fields
(`Step`, `Register`, `Lookup`, `Ended`, `Played`, ...). Code that several threads run is also a state
machine with one action per lock region or atomic operation; a run is any list of actions, and an
invariant is proved over all runs.

| files | what is modelled |
|---|---|
| `WebSocketFrames`, `WebSocketClient`, `WebSocketStream` | the incremental frame decoder and the header encoder (sections 5.2 and 5.3 of RFC 6455). Main result: however a byte stream is cut into chunks, the delivered messages are those of the stream; exactly what unmasking does to each octet; and exactly which pings and which non-final frames are served. |
| `ConnectionTables`, `ConnectionRuns`, `ConnectionQuiet` | accept, remove and close of the plain and the TLS server: the six maps, the ID pool, and every interleaving of their lock regions. Main results: the tables stay mutually inverse, no bufferevent is freed twice, exactly which runs lose one, as many IDs exist as connections were ever open at one time, and what the tables hold when nothing is under way. |
| `LruCache`, `ModuleCache`, `ModuleCacheRuns` | the cache of loaded modules: LRU inclusion, how long a used module stays, no handle closed in use, where every handle is, and exactly when a path has one handle. |
| `ThreadPool` | the job queue and every interleaving of adders, workers, join and detach: conservation and order of jobs, exactly when a join leaves something running, that it cancels what is queued, and that it returns. |
| `Base64`, `Split`, `Url`, `Query` | codecs. Base64 with its wrapping 32-bit accumulator equals the definition by groups of RFC 4648 and is undone by the decoder; splitting is undone by joining and the other way round; unescaping undoes escaping; and exactly which maps survive being printed as a query and parsed. |
| `RequestBody` | a request body read through the socket reader's budget: for a body of the announced length, some of it buffered with the blank line and the rest in any reads, it is handled once and whole exactly when the buffered part holds no newline; and for any longer stream, exactly which cuttings give the right body. |
| `ChessBoard`, `ChessMoves`, `ChessSearch`, `ChessScore`, `ChessRules`, `ChessSeats`, `ChessMatch`, `ChessRegistry`, `ChessRegistryRuns`, `ChessFen` | Probability Chess: the board in an array, ray move generation, attacks, the match rules over all runs, the machine players and how they compare moves, the register of matches, and FEN. |

Bytes are numbers below 256 or characters standing for bytes. A descriptor, bufferevent, module handle
or match object is an opaque number. Clocks, dice, `rand()` and what `dlopen` gives are parameters.

Where the code and its documentation or the obvious expectation part:

- `split` with `condense` keeps an empty first piece (`CondensedHasNoEmpty` says when).
- A module without its entry symbol leaks its handle, because the constructor of the item throws
  (`OneHandleExactly`).
- After `detach` a later `join` can return while a job runs (`JoinLeavesRunningExactly`, `DetachedOutlivesJoin`).
- `loadFEN` rejects what `toFEN` prints, at the space behind the placement (`WholeFenFails`).
- `pathWithParameters` escapes nothing, so not every map comes back (`QuerySurvivesExactly`).
- Body bytes that are buffered together with the blank line are cut at newlines, which are lost: with a
  newline among them the body is never handled (`BodyArrivesExactly`). They are also not taken off the
  read budget, so when the client sends more than the body, the chunk that completes it can be too long,
  and the wrong end of it is kept: `BodyRightExactly` says for which cuttings the body is right, and
  `BodyCanBeWrong` is a run in which it is not. With nothing buffered it always is (`NoExcessIsRight`).
- A request without a length is handed over at its blank line (`WithoutLength`), but the connection stays in
  the mode for content: the next line, which begins the next request, is handed over as the content of
  another one (`NextLineIsContent`).
- With length 0, announced or because the header is spelled other than `Content-Length`, the first chunk
  is taken as the whole body (`FirstChunkIsBody`), or the buffered bytes up to the first newline
  (`FirstLineIsBody`).
- `unescape` reads past the end of a string of one or two bytes that holds `%` (`Unescaped` is None there).
- A ping is served only if nothing is held back before it, it comes alone in its call, and it is empty
  (`PingServedExactly`). Otherwise: bytes behind it in the same call are lost (`PingLosesRest`), its
  payload is delivered in front of the next message (`PingSpoilsMessage`), or, when it is completed by a
  second call, it is answered again on every call and no message is delivered any more (`WedgedForever`).
- A non-final frame is joined with the next final one if it is cut inside its payload; if it arrives whole it
  closes the socket (`FragmentExactly`).
- "Prefer capture, especially larger value": a larger capture in the move that is best so far is not looked at,
  so two moves can each be preferred to the other (`BothSuperiorExactly`), and the order of the list decides
  (`OrderDecides`); without such a pair nothing is preferred to the picked move (`BestIsUnbeaten`).
- The check that the scoring players look at asks whether a piece of the king's own colour attacks his square
  (`CheckRightExactly` says when that is check); at the start both kings look mated (`StartLooksMated`).
- A removal that comes to its second region before the accept of the same descriptor has ended throws,
  and its bufferevent is never freed (`ThrowsExactly`, `NoBufferEventLost`, `LostForever`).

## Model

| member | source | states |
|---|---|---|
| WebSocketClient.Client.HandleInput | src/http/Client.cpp:27-132 | one call changes the fields and makes the calls that `Step` says, for every state and input |
| WebSocketClient.Client.ReadHeader | src/http/Client.cpp:35-66 | the header part: incomplete headers are kept whole, unmasked or oversized frames are refused |
| WebSocketClient.Client.ReadPayload | src/http/Client.cpp:67-110 | the part behind a complete header, with the ping, final and non-final branches |
| WebSocketClient.Client.ReadBody | src/http/Client.cpp:111-132 | the continuation of a half-read packet |
| WebSocketClient.Client.AppendUnmasked | src/http/Client.cpp:75-80 | the unmasking loop appends the masked octets, resuming at the stored mask offset |
| WebSocketClient.Client.SendHeader | src/http/Client.cpp:147-175 | the header written before a payload: FIN, opcode, and the length bytes of `LengthBytes` |
| WebSocketFrames.LengthRoundTrip | src/http/Client.cpp:44-58 | for every 64-bit length, what the encoder writes the decoder reads back |
| WebSocketFrames.LengthShortest | src/http/Client.cpp:155-172 | no header that announces the same length is shorter than the written one |
| WebSocketFrames.StreamDecodes | src/http/Client.cpp:27-132 | a stream of a conforming client's masked frames decodes to their payloads |
| WebSocketFrames.DecodeConcat | src/http/Client.cpp:27-132 | what follows whole frames is decoded on its own |
| Bytes.XorIsDifference | src/http/Client.cpp:75-80 | each bit of the result is set if and only if it differs in the two octets |
| WebSocketFrames.MessageIsUnmasked | src/http/Client.cpp:75-80 | octet i of a message differs from the received octet exactly in the bits of key octet i mod 4 |
| WebSocketFrames.RefusedExactly | src/http/Client.cpp:44-66 | a header is refused if and only if the mask bit is missing or the length is above 2^24; otherwise final bit, opcode, length and key are read as sent |
| WebSocketStream.StepAdvances | src/http/Client.cpp:27-132 | from any state that holds some bytes, a call delivers at most the one frame its bytes complete and holds the rest |
| WebSocketStream.ChunkingInvariance | src/http/Client.cpp:27-132 | for every cutting of a supported stream: what was delivered, followed by the decoding of what the state still holds, is the decoding of all received bytes; and there are no more messages than calls |
| WebSocketStream.EmptyCall | src/http/Client.cpp:27-132 | a call without input delivers one held-back frame and shortens the leftover, or delivers nothing |
| WebSocketStream.CutAndDrained | src/http/Client.cpp:27-132 | any cutting followed by enough empty calls delivers exactly the messages of the stream |
| WebSocketStream.SentIsReceived | src/http/Client.cpp:27-132 | the payloads a client sends are the messages the handlers get, in order |
| WebSocketStream.RefusedStep | src/http/Client.cpp:60-64 | a refused header is answered with an error and nothing of it is consumed |
| WebSocketStream.IncompleteStep | src/http/Client.cpp:35-66 | an incomplete header is kept whole |
| WebSocketStream.FragmentStep | src/http/Client.cpp:88-110 | the call that reads a non-final header: the whole frame closes the socket, a part of it goes into the packet |
| WebSocketStream.FragmentExactly | src/http/Client.cpp:88-131 | a non-final frame cut inside its payload is delivered in front of the next message; a whole one closes the socket and leaves no trace in it |
| WebSocketStream.PingServedExactly | src/http/Client.cpp:82-86 | in every state of a stream, a call that meets a ping answers it once, consumes it and holds the rest, if and only if nothing was held, the ping is alone in the call, and it is empty |
| WebSocketStream.OrderlyPings | src/http/Client.cpp:27-132 | over any run whose pings are empty, alone in their calls, and come when nothing is held back: the other frames are delivered as if the pings were not there, and each ping is answered once |
| WebSocketStream.PingStep | src/http/Client.cpp:82-86 | what such a call does: it answers at once, keeps the payload in the packet, and consumes nothing |
| WebSocketStream.PingLosesRest | src/http/Client.cpp:82-86 | a call that starts with a whole ping does the same whatever follows it |
| WebSocketStream.PingSpoilsMessage | src/http/Client.cpp:75-105 | the next message is delivered with the payload of the ping in front |
| WebSocketStream.WedgedForever | src/http/Client.cpp:82-86 | once the leftover begins with a ping, over any further calls each answers it again, nothing is consumed and no message is delivered |
| ConnectionTables.Server.Accept | src/net/Server.cpp:266-301 | a whole accept adds one connection to every table and changes no other; the ID was free |
| ConnectionTables.Server.Remove | src/net/Server.cpp:146-174 | a whole removal takes the connection out of every table and frees its bufferevent once; the nested close returns false |
| ConnectionTables.Server.Close | src/net/Server.cpp:481-495 | true exactly when the client's bufferevent is found, and then it is removed or queued |
| ConnectionTables.Server.QueueClose | src/net/Server.cpp:192-199 | removes at once when nothing is left to write, else queues |
| ConnectionTables.Server.CloseHandler | src/http/Server.cpp:26-28 | the installed handler ends in close on the same client |
| ConnectionTables.DetachKeepsComplete | src/net/Server.cpp:146-153 | after the first region of a removal the close of its client finds nothing |
| ConnectionTables.RegisterTables | src/net/Server.cpp:269-279 | allocation keeps `clients` and `descriptors` inverse and the IDs partitioned into live and pooled |
| ConnectionTables.UnregisterTables | src/net/Server.cpp:155-164 | so does giving the ID back |
| ConnectionTables.AcceptedExactly | src/net/SSLServer.cpp:134-227 | accepting adds the connection to each table, and to the sessions exactly on a TLS server |
| ConnectionTables.RemovedExactly | src/net/SSLServer.cpp:99-132 | removing takes it out of each table and puts the ID into the pool |
| ConnectionTables.RemoveUndoesAccept | src/net/SSLServer.cpp:99-227 | removing what was accepted gives back all the tables, but for a new ID, which goes into the pool |
| ConnectionRuns.TablesAlwaysSafe | src/net/Server.cpp:146-174 | over all interleavings: both pairs of maps inverse, every attached descriptor registered, IDs partitioned, no "already has a bufferevent", no nested close that finds one, no bufferevent freed twice |
| ConnectionRuns.UnregisterKeeps | src/net/SSLServer.cpp:99-132 | the step with the nested close keeps the invariant in both servers |
| ConnectionRuns.AttachKeeps | src/net/SSLServer.cpp:134-227 | attaching never meets a descriptor that is already attached |
| ConnectionRuns.NothingDouble | src/net/Server.cpp:146-174 | in every state a run can reach, an accept about to attach finds its descriptor free, and no close finds the client of a removal about to unregister |
| ConnectionRuns.LoneAccept | src/net/SSLServer.cpp:134-227 | the regions of an accept that nobody disturbs have together the effect of `Server.Accept` |
| ConnectionRuns.LoneRemove | src/net/SSLServer.cpp:99-132 | and those of a removal that of `Server.Remove` |
| ConnectionRuns.ThrowsExactly | src/net/Server.cpp:155-160 | a removal throws in its second region if and only if an accept of the same descriptor is past its first region and has not ended |
| ConnectionRuns.NoBufferEventLost | src/net/Server.cpp:146-174 | over any run: every bufferevent ever made is attached, freed, or in the hands of a removal at work, if and only if no removal of the run overtook an accept in that way |
| ConnectionRuns.LostForever | src/net/Server.cpp:146-174 | the bufferevent of a removal that threw is neither freed nor attached in any continuation |
| ConnectionRuns.BufferEventCanBeLost | src/net/Server.cpp:146-174 | a run that loses one: it is removed after its worker is registered and before its client object is |
| ConnectionRuns.IdsEqualPeak | src/net/Server.cpp:269-279 | over any run lastClient + 1 is the peak number of registered connections |
| ConnectionQuiet.QuietTables | src/net/SSLServer.cpp:99-227 | over all interleavings, when no task is under way, every table holds exactly the open connections, the sessions exactly on a TLS server |
| LruCache.LargerCacheHoldsMore | src/plugins/fileserv/ModuleCache.cpp:33-72 | under a forward clock a larger cache holds all a smaller one holds, with the same times, and what only it holds is older |
| LruCache.RecentlyUsedIsHeld | src/plugins/fileserv/ModuleCache.cpp:33-72 | a module that was used stays in a cache of size n while it is not removed and fewer than n others are looked up |
| ModuleCache.Cache.Get | src/plugins/fileserv/ModuleCache.cpp:17-43 | a lookup hands out the cached or the loaded handle with one shared lock, and evicts exactly the oldest item of a full cache |
| ModuleCache.Cache.OldestItem | src/plugins/fileserv/ModuleCache.cpp:57-72 | the search finds an item that no other was used before |
| ModuleCache.Cache.Remove | src/plugins/fileserv/ModuleCache.cpp:45-55 | true exactly when the path was cached; closes its handle and no other |
| ModuleCache.Cache.Release | src/plugins/fileserv/ModuleCache.cpp:92-94 | dropping the shared lock changes only the reader count |
| ModuleCacheRuns.HandlesInUseStayOpen | src/plugins/fileserv/ModuleCache.cpp:17-94 | over all interleavings a handle in use is open and belongs to its path, none is closed twice, and the cache is never too large |
| ModuleCacheRuns.HandlesConserved | src/plugins/fileserv/ModuleCache.cpp:17-94 | in every run each handle ever opened is in exactly one place: in the cache, closed, or leaked |
| ModuleCacheRuns.LoneLookup | src/plugins/fileserv/ModuleCache.cpp:17-72 | the steps of a caller that nobody disturbs have the result of the LRU lookup, and so of `Cache.Get` |
| ModuleCacheRuns.LoneRemove | src/plugins/fileserv/ModuleCache.cpp:45-55 | a removal that nobody disturbs closes the handle of its path and no other |
| ModuleCacheRuns.WriterIsLetIn | src/plugins/fileserv/ModuleCache.cpp:87-94 | whoever waits to close an item can do so once its holders have released it |
| ModuleCacheRuns.OneHandleExactly | src/plugins/fileserv/ModuleCache.cpp:26-42 | a path never has two open handles in any run, if and only if its module does not lack the entry symbol |
| ModuleCacheRuns.MissingSymbolLeaks | src/plugins/fileserv/ModuleCache.cpp:74-85 | with the symbol missing there is a run with two open handles |
| ModuleCacheRuns.WaitingWriterIsNotOvertaken | src/plugins/fileserv/ModuleCache.cpp:87-94 | while a writer waits to close an item nobody gets a new lock on it |
| ThreadPool.MTQueue.TryTake | include/threading/MTQueue.h:51-59 | takes the first item, or nothing from an empty queue, and so takes the oldest job of the queue the pool is proved about |
| ThreadPool.MTQueue.Push | include/threading/MTQueue.h:61-69 | adds at the end, as the next job of that queue |
| ThreadPool.MTQueue.Clear | include/threading/MTQueue.h:76-79 | empties the queue, discarding its jobs |
| ThreadPool.JobsConserved | src/threading/ThreadPool.cpp:20-82 | every added job is in exactly one of queued, running, done and discarded |
| ThreadPool.TakenInAddOrder | src/threading/ThreadPool.cpp:20-82 | the queue is the end of the add history, jobs are taken in add order and at most once, no two workers are in one job, jobsDone counts completions |
| ThreadPool.JoinLeavesOnlyDetached | src/threading/ThreadPool.cpp:48-58 | when the winning join returns only detached threads can be in a job |
| ThreadPool.JoinLeavesRunningExactly | src/threading/ThreadPool.cpp:48-70 | in each run: a winning join leaves something running if and only if an earlier detach of the run let a worker go that is still in a job |
| ThreadPool.DetachedExactly | src/threading/ThreadPool.cpp:60-70 | the detached threads are those a detach of the run has let go |
| ThreadPool.JoinEmptiesExactly | src/threading/ThreadPool.cpp:48-70 | runs without a detach leave nothing running at a winning join; among all runs there is one that does |
| ThreadPool.DetachedOutlivesJoin | src/threading/ThreadPool.cpp:60-70 | a run in which a join returns while a detached thread runs a job |
| ThreadPool.JoinCancels | src/threading/ThreadPool.cpp:48-52 | once a winning join or detach has cleared the queue, no job added before is ever taken: it is discarded |
| ThreadPool.LosingClose | src/threading/ThreadPool.cpp:48-70 | a join or detach that loses an exchange touches neither queue nor threads |
| ThreadPool.CloseInThree | src/threading/ThreadPool.cpp:48-70 | the first three steps of one that wins: both flags are exchanged and the queue is discarded |
| ThreadPool.CloseEnds | src/threading/ThreadPool.cpp:48-70 | one that won waits for the threads, or lets them go, and leaves an empty pool that can be started again |
| ThreadPool.WorkerLeaves | src/threading/ThreadPool.cpp:22-44 | while joining, four steps bring any worker out of its loop, wherever it was |
| ThreadPool.JoinReturns | src/threading/ThreadPool.cpp:48-58 | a join that won returns once every thread of the pool was given four steps |
| ThreadPool.WaitingWorkerRuns | src/threading/ThreadPool.cpp:24-43 | a waiting worker with a reason to wake up runs the oldest job and counts it |
| ThreadPool.WorkerWaits | src/threading/ThreadPool.cpp:24-29 | without such a reason it waits |
| ThreadPool.AddedJobRuns | src/threading/ThreadPool.cpp:20-82 | a job added to an active pool with a waiting worker is run by it |
| ThreadPool.IdleRefuses | src/threading/ThreadPool.cpp:72-82 | a pool that is not active takes no job |
| ThreadPool.StartedOnce | src/threading/ThreadPool.cpp:13-20 | a started pool is not started again |
| Base64.Encode | src/util/Base64.cpp:17-39 | the encoder computes the definition by three-byte groups, for every byte string |
| Base64.Decode | src/util/Base64.cpp:42-60 | the decoder packs the sextets before the first character outside the alphabet |
| Base64.LowBits | src/util/Base64.cpp:23-25 | the bits later read survive the 32-bit wrap, and adding a byte never overflows |
| Base64.LowSextets | src/util/Base64.cpp:48-52 | the same for the decoder |
| Base64.RoundTrip | src/util/Base64.cpp:17-60 | decoding the encoding of every byte string gives it back |
| Base64.GroupValue | src/util/Base64.cpp:17-39 | the sextets of a group are the digits to base 64 of the number its bytes are to base 256 |
| Base64.SymbolByPosition | src/util/Base64.cpp:7-15 | the alphabet in the order of the table |
| Base64.Examples | src/util/Base64.cpp:17-39 | examples of section 10 of RFC 4648, padding included |
| Split.Split | src/util/Util.cpp:9-35 | computes the first piece and the kept others, for any nonempty delimiter |
| Split.PiecesRejoin | src/util/Util.cpp:9-35 | the pieces joined with the delimiter are the input |
| Split.PiecesWithoutDelimiter | src/util/Util.cpp:9-35 | no piece contains the delimiter |
| Split.SplitUndoesJoin | src/util/Util.cpp:9-35 | pieces without a one-character delimiter come back from their join |
| Split.CondensedHasNoEmpty | src/util/Util.cpp:19-32 | condensing leaves no empty piece if and only if the input is empty or does not begin with the delimiter |
| Url.Unescape | src/util/Util.cpp:113-162 | decodes escapes with both digits inside the string and pluses, and stops where the program would read past the end; what an escape, a plus and a lone `%` give is in the laws below |
| Url.EscapeUrl | src/util/Util.cpp:230-245 | escapes every byte but letters, digits, dot, underscore and space, with a signed char |
| Url.CharHex | src/util/Util.cpp:247-254 | the two hexadecimal digits |
| Url.UnescapeUndoesEscape | src/util/Util.cpp:113-254 | unescaping the escaped form gives back every byte string |
| Url.HexExactly | src/util/Util.cpp:130-155 | exactly the characters 0-9, a-f and A-F are digits |
| Url.EscapeDecoded | src/util/Util.cpp:113-162 | an escape in either spelling of its digits gives its byte, in any place of a string, with or without pluses as spaces |
| Url.EscapeUnescaped | src/util/Util.cpp:113-162 | so does an escape alone |
| Url.PercentKept | src/util/Util.cpp:113-162 | a `%` without two digits behind it stays |
| Url.PlusDecoded | src/util/Util.cpp:113-162 | a plus is a space exactly if that was asked for |
| Url.EscapedByPosition | src/util/Util.cpp:230-254 | what escaping does to each of the 256 bytes |
| Url.EscapedSafe | src/util/Util.cpp:230-245 | an escaped string has only unreserved characters, `%` and `+` |
| Url.UnescapedUnchanged | src/util/Util.cpp:113-162 | a string comes back unchanged if and only if it has no plus, no escape, and no `%` in fewer than three bytes |
| Query.GetParameters | src/http/Request.cpp:221-253 | the parameters are those of the pieces between ampersands, with or without chopping at `?` |
| Query.GetPath | src/http/Request.cpp:217-219 | the part before the first `?` |
| Query.PathWithParameters | src/http/Request.cpp:288-309 | prints the entries joined with ampersands, in the order of iteration |
| Query.QueryRoundTrip | src/http/Request.cpp:217-309 | path and map come back for a path without `?` and surviving entries, in any order of iteration |
| Query.QuerySurvivesExactly | src/http/Request.cpp:221-309 | a map printed behind a path without `?` is read back if and only if each entry holds no ampersand, plus or escape, no equals sign in its key, and is not empty |
| Query.LastPairCounts | src/http/Request.cpp:235-252 | of several pairs with one key the last counts |
| Query.PrintedLooks | src/http/Request.cpp:288-309 | a question mark, ampersands between the entries, and an equals sign only before a value that is not empty |
| Query.AddedAllWeight | src/http/Request.cpp:235-252 | the pairs of a query add no more than their own length, and exactly that only if every entry survives |
| Query.EscapedQueryRoundTrip | src/http/Request.cpp:221-309 | with keys and values escaped first, every map of byte strings comes back |
| RequestBody.Connection.HandleLine | src/http/Request.cpp:23-125 | the blank line and the content branch: new fields, and exactly which of the three results is returned |
| RequestBody.Connection.HandleInput | src/http/Client.cpp:133-145 | leaves line mode or hands the request over, as handleLine says |
| RequestBody.Connection.HandleRead | src/net/Server.cpp:373-394 | the read loop outside line mode takes chunks bounded by buffer, input and budget until the input is empty |
| RequestBody.WithoutLength | src/http/Request.cpp:23-30 | a request without a length is handed over at its blank line, once and without content, and line mode and budget stay |
| RequestBody.NextLineIsContent | src/http/Request.cpp:23-125 | the line behind it is handed over as the content of another request |
| RequestBody.BodyArrives | src/http/Request.cpp:106-125 | for every cutting and buffer size: budget equals missing bytes, nothing is handled early, then the body is handled once and whole and the rest passed on |
| RequestBody.BodyArrivesExactly | src/net/Server.cpp:373-433 | a body of the announced length, part of it buffered with the blank line and the rest in any reads, is handled once and whole if and only if the buffered part holds no newline, and is otherwise never handled |
| RequestBody.FormArrives | src/http/Request.cpp:167-176 | a form with escaped fields arrives as its map however it is cut and whatever part of it is buffered |
| RequestBody.BodyRightExactly | src/net/Server.cpp:373-433 | any part of the stream buffered without a newline, any number of bytes behind the body, any reads and buffer size: the first request handled has the body as content if and only if the completing line is exactly the missing bytes, or they sent twice, as `TakenRight` reads off the cutting and the excess budget |
| RequestBody.FedBodyExactly | src/net/Server.cpp:373-433 | the same for every buffered part, newlines included: the content is the beginning of what is passed on if and only if the lines and reads are cut right |
| RequestBody.NoExcessIsRight | src/net/Server.cpp:376-386 | with nothing buffered every cutting is right |
| RequestBody.BodyCanBeWrong | src/http/Request.cpp:107-109 | a run with one of two bytes buffered in which the content is not the body |
| RequestBody.BudgetAgreesExactly | src/net/Server.cpp:398-430 | budget and count agree after the blank line if and only if only newlines were buffered behind it |
| RequestBody.FirstChunkIsBody | src/http/Request.cpp:106-120 | with length 0 and nothing buffered the first chunk is taken as the whole body |
| RequestBody.FirstLineIsBody | src/http/Request.cpp:106-120 | with length 0 and something buffered its first line, possibly empty, is the whole body, whatever follows |
| ChessBoard.Board.MovePiece | src/plugins/probchess/Board.cpp:207-215 | writes the new cell, then clears the recorded one |
| ChessBoard.Board.Assign | src/plugins/probchess/Board.cpp:22-34 | copies every cell |
| ChessBoard.Board.PlacePieces | src/plugins/probchess/Board.cpp:138-165 | the starting position |
| ChessMoves.Ray | src/plugins/probchess/Queen.cpp:8-16 | a ray loop lists exactly the squares of the board in its direction with only empty squares before them |
| ChessMoves.Filter | src/plugins/probchess/Piece.cpp:5-22 | removal in place keeps exactly the squares on the board that no own piece holds |
| ChessMoves.QueenMoves | src/plugins/probchess/Queen.cpp:5-89 | exactly the squares in line and on diagonals with a clear way and no own piece |
| ChessMoves.RookMoves | src/plugins/probchess/Rook.cpp:5-50 | exactly the squares in line with a clear way and no own piece |
| ChessMoves.BishopMoves | src/plugins/probchess/Bishop.cpp:5-49 | exactly the squares on diagonals with a clear way and no own piece |
| ChessMoves.PawnMoves | src/plugins/probchess/Pawn.cpp:5-27 | exactly the single and double steps and the captures |
| ChessMoves.KnightMoves | src/plugins/probchess/Knight.cpp:4-23 | exactly the knight's squares |
| ChessMoves.KingMoves | src/plugins/probchess/King.cpp:4-17 | exactly the neighbouring squares |
| ChessMoves.QueenIsRookAndBishop | src/plugins/probchess/Queen.cpp:5-89 | a queen reaches what a rook or a bishop reaches, and no square both ways |
| ChessMoves.RookSquares | src/plugins/probchess/Rook.cpp:5-50 | along its row or column, with no piece of that row or column between |
| ChessMoves.BishopSquares | src/plugins/probchess/Bishop.cpp:5-49 | along the squares of equal sum or equal difference of row and column, with no piece of that diagonal between |
| ChessMoves.KnightSquares | src/plugins/probchess/Knight.cpp:4-23 | the squares at the distance of the square root of five |
| ChessMoves.KingSquares | src/plugins/probchess/King.cpp:4-17 | the squares at most one row and one column away |
| ChessMoves.PawnSquares | src/plugins/probchess/Pawn.cpp:5-27 | white towards row 0 and two rows from row 6, black towards row 7 and two rows from row 1, captures aside |
| ChessSearch.IsAttacked | src/plugins/probchess/Board.cpp:46-66 | true exactly when a piece of the colour attacks the square; the board is restored on both ways out |
| ChessSearch.ProbeFindsAttacks | src/plugins/probchess/Board.cpp:46-66 | reaching the rook put on the square is attacking the square |
| ChessSearch.FindKing | src/plugins/probchess/Board.cpp:68-78 | the first king of the colour in reading order, or none |
| ChessSearch.IsInCheck | src/plugins/probchess/Board.cpp:80-86 | true exactly when a piece of the king's own colour attacks his square; the board is restored |
| ChessSearch.IsCheckmated | src/plugins/probchess/Board.cpp:88-112 | true exactly when there is no king, or a piece of his own colour attacks him where he stands and on each square he can go to; otherwise he is left on a square where none does, or the board is as it was |
| ChessSearch.AllMoves | src/plugins/probchess/Board.cpp:126-136 | exactly the moves of the colour |
| ChessSearch.GetPossibleMoves | src/plugins/probchess/AIPlayer.cpp:5-16 | exactly the moves of the colour from the rolled columns |
| ChessSearch.CanMove | src/plugins/probchess/Match.cpp:198-237 | true exactly when there is a move from the rolled columns |
| ChessSearch.ChooseMove | src/plugins/probchess/CCCPPlayer.cpp:71-108 | labels exactly the playable moves, picks the best of the list by the comparison, finds one exactly when there is one, and restores the board |
| ChessSearch.ChooseAtRandom | src/plugins/probchess/RandomPlayer.cpp:7-16 | the same for the random player |
| ChessScore.PlaceIs | src/plugins/probchess/CCCPPlayer.cpp:28-69 | the last part of the comparison is a strict total order on moves: rows forward, columns near the centre, then the number of the move |
| ChessScore.ValuesOrdered | include/plugins/probchess/piece/King.h:12-12 | a captured king has the least value |
| ChessScore.SuperiorIs | src/plugins/probchess/CCCPPlayer.cpp:10-43 | a move is preferred if its rank (mate, check, capture) is higher, or at equal rank its capture is larger or its place better |
| ChessScore.BothSuperiorExactly | src/plugins/probchess/CCCPPlayer.cpp:18-37 | two moves are each preferred to the other if and only if their ranks are equal and the one with the larger capture has the worse place |
| ChessScore.FirstWishesGranted | src/plugins/probchess/CCCP2Player.cpp:8-30 | the picked move has the best of mate, check, no check to oneself, capture, in this order, over every list |
| ChessScore.MateIsPlayed | src/plugins/probchess/CCCPPlayer.cpp:71-108 | if a playable move looks like mate on the board, the picked one does; the same for check or mate |
| ChessScore.BestIsUnbeaten | src/plugins/probchess/CCCPPlayer.cpp:101-107 | no move is preferred to the picked one, if no two of the list are each preferred to the other |
| ChessScore.OrderDecides | src/plugins/probchess/CCCPPlayer.cpp:18-37 | a queen and a pawn to capture: the one listed last is picked |
| ChessMatch.Match.MakeMove | src/plugins/probchess/Match.cpp:111-173 | refused with the first failing check and nothing changed, else the move is played and what follows is stated action by action: nothing after a captured king, else the rolls of `PassTurn` and the reply of the machine; then it is the person's turn |
| ChessMatch.Match.AfterMove | src/plugins/probchess/AIMatch.cpp:28-50 | the machine's reply is never refused, and what follows a move is exactly the rolls of the turn loop, that reply and its own rolls |
| ChessMatch.Match.PassTurn | src/plugins/probchess/AIMatch.cpp:33-48 | with the list of its rolls: every roll but the last leaves its player without a move, the turns alternate from the other player on (with noSkip all are the other player's), and `turn` is that of the last roll, on which its player can move; it ends early only when the dice at hand end |
| ChessMatch.Match.Roll | src/plugins/probchess/Match.cpp:21-37 | the columns named by the shortest list of dice that names as many different columns of the board as the match asks for |
| ChessMatch.EveryColumnCanBeRolled | src/plugins/probchess/Match.cpp:25-32 | two dice can name each of the eight columns |
| ChessMatch.RolledGoesRound | src/plugins/probchess/Match.cpp:25-32 | which column the sum of two dice names |
| ChessMatch.Match.CheckPawns | src/plugins/probchess/Match.cpp:175-196 | the squares listed are exactly those whose piece changed; which these are is in `ChessRules.MoveExactly` |
| ChessMatch.PassesExactly | src/plugins/probchess/Match.cpp:111-146 | a move passes every check if and only if both seats are taken, nobody has won, it is the player's turn (the host's for his colour), and the move is playable |
| ChessMatch.RefusedExactly | src/plugins/probchess/Match.cpp:111-146 | which error each refused move gets; that of a wrong connection never occurs |
| ChessMatch.MachineMoveAccepted | src/plugins/probchess/CCCPPlayer.cpp:71-108 | every move the machine can choose passes every check |
| ChessRules.EveryRunIsSafe | src/plugins/probchess/Match.cpp:111-196 | over every run from the start: recorded squares are right, sixteen pieces of each colour on board or captured, no pawn on its last row, both kings once each until there is a winner and then exactly the loser's gone |
| ChessRules.PlayedKeeps | src/plugins/probchess/Match.cpp:148-172 | one accepted move keeps all of that |
| ChessRules.MoveExactly | src/plugins/probchess/Match.cpp:148-196 | the board after a move, square by square: white pawns become queens on row 0, black ones on row 7 |
| ChessRules.ActionsExactly | src/plugins/probchess/Match.cpp:148-172 | what a move and a change of turn do to board, captured pieces, winner, turn and columns |
| ChessRules.OpeningMoves | src/plugins/probchess/Board.cpp:138-165 | from the starting position exactly the twenty opening moves of a colour can be made, as far as their columns were rolled |
| ChessRules.WinnerIsFinal | src/plugins/probchess/Match.cpp:115-116 | nothing more happens in a game that has a winner |
| ChessRules.StartCanMove | src/plugins/probchess/ProbabilityChess.cpp:259-262 | at the start white can move whatever is rolled, so a new match never ends for lack of moves |
| ChessRules.CheckRightExactly | src/plugins/probchess/Board.cpp:80-86 | what the program takes for check is check in chess if and only if both colours or neither attack the king's square |
| ChessRules.StartLooksMated | src/plugins/probchess/Board.cpp:88-112 | at the start both kings look mated, though nothing attacks them |
| ChessRules.CheckIsMissed | src/plugins/probchess/Board.cpp:80-86 | a king attacked by a rook that does not look checked |
| ChessRegistry.Registry.Connect | src/plugins/probchess/ProbabilityChess.cpp:43-43 | the client is added to the connections and nothing else changes |
| ChessRegistry.Registry.CreateMatch | src/plugins/probchess/ProbabilityChess.cpp:204-270 | the checks in order, and the registration of match and host |
| ChessRegistry.Registry.JoinMatch | src/plugins/probchess/ProbabilityChess.cpp:272-348 | the checks in order, and the seat or spectator place taken |
| ChessRegistry.Registry.LeaveMatch | src/plugins/probchess/ProbabilityChess.cpp:350-361 | the client is taken out of match and register |
| ChessRegistry.Registry.HandleClose | src/plugins/probchess/ProbabilityChess.cpp:181-190 | the same for a closed connection |
| ChessRegistry.Registry.End | src/plugins/probchess/Match.cpp:39-71 | the match is over and out of the register, and all its people are free |
| ChessRegistry.Registry.Disconnect | src/plugins/probchess/Match.cpp:73-93 | the client leaves every place; a match without active player ends |
| ChessRegistryRuns.RegisterIsExact | src/plugins/probchess/ProbabilityChess.cpp:181-362 | over every run: registered for a match exactly when host, guest or spectator of it and it is not over; registered by id exactly while not over; nobody has two roles |
| ChessRegistryRuns.LeavingKeeps | src/plugins/probchess/Match.cpp:73-93 | leaving keeps the register exact although the seat is given up before the entry |
| ChessRegistryRuns.LeavingExactly | src/plugins/probchess/Match.cpp:73-93 | leaving ends the match if and only if nobody else sits in a seat that keeps it active; if not, only the client is gone; no other match or client is touched |
| ChessRegistryRuns.ClosingExactly | src/plugins/probchess/ProbabilityChess.cpp:181-190 | closing is leaving and forgetting the connection |
| ChessRegistryRuns.CreateAcceptedExactly | src/plugins/probchess/ProbabilityChess.cpp:204-243 | exactly which requests create a match |
| ChessRegistryRuns.CreatingExactly | src/plugins/probchess/ProbabilityChess.cpp:204-270 | the new match with its seats and colour, and when it ends at once; no other match or client is touched |
| ChessRegistryRuns.JoinAcceptedExactly | src/plugins/probchess/ProbabilityChess.cpp:272-348 | exactly which requests are let in |
| ChessRegistryRuns.JoiningExactly | src/plugins/probchess/ProbabilityChess.cpp:272-348 | the seat or place taken, and when the match starts or ends; no other match or client is touched |
| ChessRegistryRuns.WinningExactly | src/plugins/probchess/Match.cpp:39-71 | a win ends the match of the client and frees its people; nothing else changes |
| ChessRegistryRuns.ConnectedExactly | src/plugins/probchess/ProbabilityChess.cpp:181-190 | in every run exactly those clients are connected whose connection was opened and not closed since |
| ChessFen.ToFen | src/plugins/probchess/Board.cpp:232-256 | prints the rows with blanks counted, and the fixed other fields |
| ChessFen.LoadFen | src/plugins/probchess/Board.cpp:167-195 | places pieces until the text ends or a character or place is wrong |
| ChessFen.PlacementRoundTrip | src/plugins/probchess/Board.cpp:167-256 | loading the printed placement on an empty board rebuilds every position |
| ChessFen.WholeFenFails | src/plugins/probchess/Board.cpp:167-256 | loading the whole printed text rebuilds the position and then always fails |
| ChessFen.LoadsExactly | src/plugins/probchess/Board.cpp:167-195 | a text loads without a problem if and only if its rows hold only digits and letters of pieces and each piece has its square on the board; whatever the text, what is placed is on the board |
| ChessFen.StartIsPrinted | src/plugins/probchess/Board.cpp:232-256 | the starting position is printed row by row as the notation gives it, and the player to move as w or b |

## Left out

- libevent, sockets, OpenSSL, dlopen, JSON, GeoIP, clang, ACME and the shell are foreign calls; a bufferevent that cannot be made is not modelled.
- WebSocketStream.ChunkingInvariance: speaks of streams whose frames are masked, final, not pings and at most 2^24 bytes long; pings, refused headers and non-final frames have their own theorems.
- A message that is complete stays held back until the next input arrives; nothing is proved about when that is.
- The TLS filter by IP address is one action that may refuse; `ConnectionRuns` does not model read buffers, the accept queue, `addClient`, or an EOF that leaves a close queued.
- ConnectionTables.Server.CloseHandler: the close handlers that plugins register for a WebSocket run before the close; they do not touch these tables and are left out here (the chess plugin's is `ChessRegistry.Registry.HandleClose`).
- ThreadPool.JobsConserved: `start` is one step of an idle pool; a start that races with a join, thread creation, lost wake-ups and fairness are not modelled; `WorkerLeaves`, `JoinReturns` and `AddedJobRuns` say what happens when the threads they name are given their steps.
- LruCache.RecentlyUsedIsHeld: is about modules that can be opened; one that cannot has evicted another before that is found out.
- ModuleCache.Cache.Get: the class is the view of one thread; blocking and the interleavings are in `ModuleCacheRuns`.
- RequestBody.BodyArrives: is about nothing buffered behind the blank line; `BodyArrivesExactly`, `BodyRightExactly` and `FedBodyExactly` are about a buffered part. For a form, whose fields can be the same for different contents, a wrong cutting is not proved to give other fields.
- RequestBody.Connection.HandleLine: takes the blank line and body chunks only; the request line, the header lines (and with them the spelling of Content-Length), ranges, and line mode before the blank line are left out.
- RequestBody.FormArrives: whether method and content type make the request a form is a parameter.
- RequestBody.Connection.HandleInput: records what arrives after the finished request and does not parse it as the next one.
- Query.PathWithParameters: takes the entries in the order the map is iterated; `std::map` orders them by key, the results hold for any order.
- Url.Unescape: where the program reads out of range the model returns None; `isxdigit` is taken to be false for bytes from 128 up.
- Split.Split: an empty delimiter is left out; the program does not end on it.
- ChessBoard.Board.MovePiece: pieces are values with a recorded square, so sharing of one piece object between board, captured list and labels is not modelled.
- ChessSearch.ChooseMove: the comparison is a parameter, which `ChessScore` fills in; the order in which the moves are listed is not stated.
- ChessSearch.Labels: when the search for mate has left the king on another square, the last label is computed there; on which square is not stated.
- ChessSearch.AllMoves: the overload for both colours is left out.
- ChessMatch.Match.Roll: proved when the dice end the loops; that they do with probability one is not.
- ChessRegistry.Registry.Connect: the protocol check and the registration of the handlers are left out.
- ChessRegistry.Registry.CreateMatch: the one-player test match, whose guest is never filled, is left out, and so is `getPieces`, whose loop advances the wrong counter.
- ChessRegistryRuns.RegisterIsExact: each operation is one step; joinMatch, leaveMatch and handleClose take the lock for it, createMatch takes none of its own and relies on the reader, which handles messages under the client lock (src/net/Server.cpp:361). A finished game is the action `Win` of any registered client; that only a played king capture causes it is in `ChessMatch`.
- Other plugins, configuration, MIME types, logging, escaping for HTML and terminals, and helpers without state.
