# smalltable, modelled and proved

smalltable is a key-value server that speaks a memcached-style binary protocol, with a range-sharding proxy in
front of it. This project models its hard parts in Dafny and proves what they promise. `dafny verify dfyconfig.toml`
checks everything.

* **Routing index** (`Keys`, `RbModel`, `RbBalance`, `RbSplice`, `RbTree`, `StServer`). The intrusive red-black tree
  with parent pointers, on the heap. A tree seen from one node is a zipper (a context and a subtree) that matches the
  memory cell by cell; every pointer assignment is proved to realise a step on zippers. Left and right versions of a
  branch are one method with a direction parameter.
* **Online shard split** (`Store`, `Agreement`, `Routing`, `ShardSplit`, `SplitLimits`). A state machine of clients, proxies and the
  manager. Every run is proved to show clients one map, given by their commands alone; runs that lack a precondition are
  exhibited, and what the second copy repairs is characterised exactly.
* **Proxy pipeline** (`Frames`, `Layout`, `Courses`, `Backend`, `Schedules`, `Batch`, `Exchange`, `Pipeline`, `Leftovers`,
  `Drift`). What the bytes of a frame mean, by a writer that serves as the reference for every reader. Requests out to several servers
  through the event loop, answers back in request order, for every finite schedule of readiness, short sends, refusals
  and disconnects and every byte stream the servers send. The course of each exchange is a function of its own events in
  the schedule. Nothing is assumed of what servers answer: the reply to a request is the frame at its rank among the whole
  frames received by reads that did not fail, or a made-up error when there are not so many.
* **Connection engine** (`Parsing`, `Connection`, `Serving`, `Freeze`). Framing of a chunked stream, quiet batches, flow
  control that neither loses nor makes up a byte, and the stop that freezes all connections but one.
* **Commands and storage** (`Storage`, `Commands`, `Buffers`, `Dispatch`). Batches in handler groups, values stored in
  place on the receive buffer with a metadata suffix laid over the next request, and the buffer that grows and may move.
* **Texts and listings** (`Escape`, `Text`, `Config`, `Grammar`, `Reconfigure`, `Listing`, `FileVersions`). Escaped file
  names, hexadecimal keys, the proxy's configuration printed, cut up in place and replaced, what its digits, words and
  lines mean, and the paged key listing.
* **Bundled algorithms**: Tarjan's components in gprof2dot (`CallGraph`, `Tarjan`, `FindCycles`), bit-granular
  Whirlpool input (`Bits`, `Whirlpool`, `Bitstrings`), the 9vx kproc run queue (`Sched`).
* `Wrappers` and `Radix` hold small shared definitions.

Sockets, `select`, the clock and the disk are parameters or fields that say what they will do next; every theorem is
for all of their values. Methods and the functions that specify them are separate: a method's `ensures` ties it to the
function, and the properties are lemmas about the function or invariants the methods keep. A function that a method and
its specification share is tied down by laws that do not mention its body: bytes written in full, a reference that writes
what it reads, sums and orders stated from outside.

Findings, each with a lemma that shows it:

* A batch that touches an eighth server sends one request more than it counts (`Batch.TooManyIff`, with an input in
  `Leftovers.EightGetsOverflow`). The request is sent again with the next batch (`Leftovers.SentAgain`), and its answer
  stays behind (`Leftovers.NothingLeftIff`). In the next batch every reply from that server answers the request before
  (`Leftovers.StaleAnswerIsNext`), and this goes on for as long as the answer to each batch's no-op has arrived with the
  last answer that was due (`Drift.LateBatch`, `Drift.EveryReplyLate`). When it has not, which needs no fault
  (`Drift.TooLateCourse`), the last answer loses its end. The next batch then gets as its first reply a frame spliced from
  that answer and the no-op's (`Drift.SplicedIsNext`); or, when the cut goes through the lengths in the header, it waits
  for bytes that nobody sends, finds the stream broken, or takes a frame of another length (`Drift.SplicedSize`).
* Making room for metadata behind a batch can move the receive buffer, while the batch is still read through the old
  pointer. The pointer stays good exactly when more than 16 bytes were free or the block can grow in its place
  (`Dispatch.Engine.ProcessMulti`); one long read suffices for the other case (`Dispatch.LongRead`).
* The version that a store reports is always 1, because a disjunction is stored (`Dispatch.Engine.NextVersion`); a
  conditional SET therefore checks only that the key exists (`Commands.VersionsDoNotDetect`, `Commands.LostUpdate`).
* A manager that dies while it reconfigures the proxies is harmless exactly when none or all of them have switched
  (`ShardSplit.CrashWhileSwitching`).
* A listed version that comes back after a change, or an item left over on the new server, loses a write
  (`SplitLimits.VersionReuseLosesAWrite`, `SplitLimits.LeftoverOnNewServer`: runs from start to switch). The two servers
  agree after the second copy exactly when every key with a listed version is equal on both and every extra key was
  listed (`SplitLimits.SecondCopyIff`). Listed versions are packed from size and time of a file; when two states of a
  file share one is stated exactly by `FileVersions.VersionsCollide`, and `SplitLimits.RewriteIsLost` has two such files.
* A configuration with a repeated proxy or start key passes the trial load of `set_config` and then ends the proxy
  (`Reconfigure.Holder.SetConfig`). A split whose boundary is a start key does this to every proxy
  (`Reconfigure.SplitInstalls`).
* A configuration of 1024 or more lines does not survive printing and reading, because the last line in a full table is
  not cut off (`Config.ReadInvertsPrintIff`). One that just fills the output buffer has its last byte overwritten
  (`Config.Print`).
* `Cycle.add_function` never merges an older cycle: its guard tests the function that was just added
  (`FindCycles.Profile.AddFunction`). Components are found whole, so nothing is missed.

## Model

| member | source | states |
|---|---|---|
| `Keys.KeyCmpIsLexicographic` | src/st_server.c:8-18 | the comparison by shared prefix and length is the lexicographic order of byte strings, in all three outcomes |
| `Keys.BelowTotal` | src/st_server.c:8-18 | that order is total |
| `Keys.BelowTransitive` | src/st_server.c:8-18 | that order is transitive |
| `RbModel.ZipIsPlug` | src/rbtree.h:110-140 | a memory that matches a zipper at a node matches the whole tree from the root, parent pointers included |
| `RbModel.Locate` | src/rbtree.h:110-140 | every node of the tree is the focus of some zipper of the same memory |
| `RbModel.RotationKeepsWholeOrder` | src/rbtree.c:30-74 | a rotation anywhere in a tree leaves the in-order sequence of the whole tree as it was |
| `RbModel.RotationWrites` | src/rbtree.c:30-74 | the cells a rotation writes turn the memory of the tree into the memory of the rotated tree, with nothing else touched |
| `RbTree.RbRoot.RotateLeft` | src/rbtree.c:30-51 | the new memory after a left rotation, cell by cell |
| `RbTree.RbRoot.RotateRight` | src/rbtree.c:53-74 | the same, mirrored |
| `RbTree.RbRoot.LinkNode` | src/rbtree.h:162-169 | hanging a leaf at a search position gives the zipper whose focus is the new red node |
| `RbBalance.RepaintBalanced` | src/rbtree.c:87-95 | the red-uncle step moves the only red-red edge two levels up and keeps black heights |
| `RbBalance.StraightenBalanced` | src/rbtree.c:98-105 | the inner-grandchild rotation keeps all black heights and the one pending edge |
| `RbBalance.LiftBalanced` | src/rbtree.c:107-109 | the final recolouring and rotation leaves a red-black tree with a black root and the same in-order sequence |
| `RbTree.RbRoot.InsertColor` | src/rbtree.c:76-139 | from a tree whose only fault is a red edge at the new node, the loop ends with a red-black tree, consistent parent pointers, a black root and the same in-order sequence |
| `RbBalance.RedSiblingBalanced` | src/rbtree.c:151-158 | rotating a red sibling away keeps the deficit where it was and gives a black sibling |
| `RbBalance.BlackNephewsBalanced` | src/rbtree.c:159-165 | with two black nephews the deficit moves up one level |
| `RbBalance.NearNephewBalanced` | src/rbtree.c:168-174 | a red near nephew becomes a red far nephew |
| `RbBalance.FarNephewBalanced` | src/rbtree.c:175-181 | a red far nephew ends the repair with a red-black tree |
| `RbTree.RbRoot.EraseColor` | src/rbtree.c:142-220 | from a tree short of one black node at a position, the loop terminates with a red-black tree, consistent pointers and the same in-order sequence |
| `RbSplice.UnlinkOrder` | src/rbtree.c:227-282 | taking out a node with at most one child removes exactly it from the in-order sequence |
| `RbSplice.SpliceOrder` | src/rbtree.c:231-266 | seating the successor in the place of a node with two children removes exactly that node from the in-order sequence |
| `RbSplice.SplicedIsSubstitute` | src/rbtree.c:239-264 | the successor's assignments, in the code's order, amount to unlinking it and renaming the erased node to it everywhere |
| `RbTree.RbRoot.FindSuccessor` | src/rbtree.c:233-237 | the leftmost node of the right subtree, as a zipper focus |
| `RbTree.RbRoot.Erase` | src/rbtree.c:222-287 | erasing any node of any valid tree leaves a valid red-black tree whose in-order sequence is the old one without exactly that node |
| `RbBalance.HeightBound` | src/rbtree.c:76-287 | 2 to the height of a red-black tree is at most the square of its size plus one: height at most 2 log2(n + 1) |
| `StServer.First` | src/rbtree.c:293-303 | the first server of the in-order sequence, or none for an empty tree |
| `StServer.Next` | src/rbtree.c:319-345 | the server that follows in the in-order sequence, found down the right subtree or up the parent pointers, which ends |
| `StServer.FindPlace` | src/st_server.c:21-36 | the search position of a key, or that the key is taken |
| `StServer.Insert` | src/st_server.c:21-42 | succeeds exactly when no server has the key; then the sorted list gains exactly that server, and the tree stays red-black and ordered |
| `StServer.ScanFloorIsGreatest` | src/st_server.c:84-107 | the linear scan finds the greatest start key not above the key, nothing only when all are above, and always something when the empty key is present |
| `StServer.FindServer` | src/st_server.c:84-107 | the tree search returns what the linear scan of the sorted server list returns, for every key |
| `StServer.Delete` | src/st_server.c:78-81 | the sorted list loses exactly that server |
| `StServer.FreeAll` | src/st_server.c:109-117 | erasing at the root until it is empty removes every server |
| `StServer.IndexIsShallow` | src/st_server.c:21-42 | an index that any run of inserts and erases can reach has height at most 2 log2(n + 1) |
| `Routing.FloorExists` | src/st_server.c:84-107 | with an empty start key every key has an owner |
| `Routing.SplitRoutes` | client/smalltable/manager.py:121-124 | adding a start key changes the owner of exactly the keys from it up to the next start key |
| `Routing.LookupIsOwner` | src/st_server.c:84-107 | the scan over the sorted list agrees with the owner given by the configuration map |
| `Store.ServeLikeMap` | src/sys_commands.c:96-181 | a server that agrees with a map on the key of a command answers like the map, changes like it, and touches no other key |
| `Agreement.ServeAsCommands` | src/sys_commands.c:96-181 | an operation of the split protocol answers as the built-in command that a client calls for it, without a version, and leaves the same items |
| `Agreement.ServeBytes` | client/smalltable/simpleclient.py:168-178 | the same of the bytes of the request: the frame that a client writes is accepted, names the key, and is answered by a packed answer that tells what the operation tells |
| `ShardSplit.NextKeeps` | client/smalltable/manager.py:62-144 | every step of clients, manager or proxies keeps the protocol invariant and the map that clients see; a client command changes that map and answers exactly as on one map |
| `ShardSplit.SplitIsTransparent` | client/smalltable/manager.py:62-144 | over every run, the map seen through running proxies is the one given by the clients' commands, every answer is the one that map gives, and no two running proxies ever route a key differently |
| `ShardSplit.InvRoutesAgree` | src/proxy_sys_command.c:80-144 | in every state of the invariant, running proxies agree on the owner of every key |
| `ShardSplit.CrashWhileSwitching` | client/smalltable/manager.py:126-136 | a manager that dies between set_config calls leaves proxies that agree if and only if none or all had switched |
| `SplitLimits.RelistMeets` | client/smalltable/manager.py:113-115 | after the second listing every source key from the boundary on is to be copied or equal on both servers if and only if every key whose version and name were listed before is equal on both; every extra key of the new server is to be deleted if and only if it was listed |
| `SplitLimits.SecondCopyIff` | client/smalltable/manager.py:113-119 | over every order of the second copy, the servers agree from the boundary on at its end if and only if both conditions held when it began |
| `SplitLimits.VersionReuseLosesAWrite` | client/smalltable/manager.py:62-132 | for every version that two items of a key share, a run from a healthy, empty cluster at whose end clients see the item that was overwritten |
| `SplitLimits.RewriteIsLost` | src/sto_fs.c:190-198 | such a run for two files of 17 bytes written 256 seconds apart, whose versions are equal |
| `SplitLimits.LeftoverOnNewServer` | client/smalltable/manager.py:70-76 | a run of the protocol that starts with an item on the new server: its key is not copied, and after the switch clients get the left-over item |
| `FileVersions.VersionsCollide` | src/sto_fs.c:190-198 | two states of a file have the same listed version if and only if nanoseconds, the low byte of the seconds, and 24 bits shared by size and seconds agree |
| `Frames.SaneSizeFits` | src/framing.c:40-69 | for all 32-bit body lengths an accepted size is the announced one, is present and fits the largest request |
| `Frames.SaneSizeIs` | src/framing.c:40-69 | exactly which headers are accepted, waited for and refused, by magic, lengths and limits |
| `Frames.ErrorFrameEchoes` | src/framing.c:119-152 | the made-up answer is a sane frame that echoes opcode and opaque; for a no-op it is a bare header |
| `Layout.PartsOf` | src/framing.c:7-33 | behind any header that announces their lengths, the extras, the key and the value are read as what they are, and the proxy routes by that key |
| `Layout.UnpackReads` | client/smalltable/simpleclient.py:168-178 | every request that a client may write is accepted and read back field by field: opcode, opaque, version, extras, key and value |
| `Layout.FlagsRead` | src/constants.h:44-49 | the lowest bit of the reserved field makes a request quiet; the next bit, or the opcode of a no-op, keeps it at the proxy, and every other request goes to the owner of its key |
| `Layout.FlagBits` | src/framing.h:32-38 | the same byte by byte for any frame: quiet if and only if byte 7 is odd, for the proxy if and only if byte 1 is 0x0A or bit 1 of byte 7 is set |
| `Layout.KeysMeet` | src/proxy_command.c:36-46 | requests that name one key go to one server, whatever else they carry |
| `Layout.SetOnTheWire` | client/smalltable/simpleclient.py:168-178 | one quiet SET with every field set, byte by byte |
| `Layout.NoopReads` | src/proxy_command.c:66-69 | the no-op behind every queue is an accepted no-op of 24 bytes with its opaque and no version, and is not quiet |
| `Layout.PackReads` | src/framing.c:73-106 | an answer is a sane frame that echoes opcode and opaque and from which status, version, extras and value read back |
| `Layout.ErrorFrameIsPacked` | src/proxy_client.c:181-190 | the made-up answer is the one the server would pack for the request with status 0x83 and the text, which a no-op does not get |
| `Courses.WholeGrows` | src/proxy_client.c:124-143 | the whole answers in a longer buffer are those of the shorter one and then those of its rest with the new bytes |
| `Courses.AfterProper` | src/uevent.c:17-49 | over every schedule, an exchange that still waits has not received an answer to every request, nor a broken one, by a read that did not fail; one that is over without a fault has |
| `Schedules.FaultEnds` | src/proxy_client.c:58-145 | an event ends an exchange if and only if it is a fault for what the exchange waits for, or a read after which all is answered or the next answer is broken; a fault counts no more answers |
| `Schedules.SendMoves` | src/proxy_client.c:75-97 | a send that takes n bytes moves the exchange on by exactly n, or to the end of the batch, and it waits to read if and only if the end is reached |
| `Schedules.BeginWhen` | src/proxy_client.c:42-56 | on a live connection an exchange begins with a send, else by connecting when a retry is due and there is a socket, and in no other case |
| `Schedules.SentIs` | src/proxy_client.c:89-96 | however its sends are cut: an exchange still has to send if and only if the bytes taken sum to less than the batch, and what it has sent is that sum, up to the size of the batch |
| `Schedules.WholeCourse` | src/proxy_client.c:42-145 | from the event that completes the batch on, only the number of bytes received counts for the answers and for the end |
| `Schedules.AfterIsFold` | src/uevent.c:31-46 | an exchange takes the course of its own events alone, whatever the other servers do and however the rounds are cut |
| `Schedules.SentAfter` | src/uevent.c:17-49 | the sum of the bytes taken decides the same over every schedule of rounds without faults |
| `Backend.CutsDoNotMatter` | src/proxy_client.c:99-145 | however the answers are cut into reads, the exchange is over exactly when the bytes received hold an answer to every request or a broken one, and all whole answers in them are counted |
| `Backend.ErrorAnswers` | src/proxy_client.c:172-195 | walking the queued bytes gives one error frame for each request from the first unanswered one on |
| `Backend.Server.DoStart` | src/proxy_client.c:42-56 | takes the exchange to where its course begins: connecting, sending or reading with one slot, or over with an answer for every request and none |
| `Backend.Server.DoConnected` | src/proxy_client.c:58-73 | the same step as the course after a connect that succeeded or failed |
| `Backend.Server.DoWrite` | src/proxy_client.c:75-97 | for a send of n bytes exactly the next n bytes of the queue, or all that are left, leave it, and it waits to read if and only if none are left; nothing leaves when the socket would block; any other result ends the exchange, as in the course |
| `Backend.Server.DoRead` | src/proxy_client.c:99-145 | receives exactly the next bytes of the stream; unless the read fails, every whole answer received so far is counted, up to one per request, and the exchange is over exactly when all are answered or the next one is broken |
| `Backend.Server.CountAnswers` | src/proxy_client.c:123-144 | the loop over the buffer counts exactly the whole answers in it, up to the last one due |
| `Backend.Server.TakeAnswer` | src/proxy_client.c:136-140 | counts the next whole frame; the last one due ends the exchange with the bytes received |
| `Backend.Server.Run` | src/uevent.c:41-44 | one callback moves the exchange one step along its course |
| `Backend.Server.DoError` | src/proxy_client.c:164-197 | cuts a partial answer off; the first requests keep their real answers, each of the others gets an error |
| `Backend.Server.DoDone` | src/proxy_client.c:199-210 | the queue and the counters are reset, the answers kept |
| `Backend.Server.DoConnectionError` | src/proxy_client.c:212-228 | closes the socket and answers every open request with an error |
| `Backend.EventLoop.StartAll` | src/proxy_client.c:23-33 | every exchange stands where its course begins, and the slots yielded add up to the servers that wait |
| `Backend.EventLoop.Dispatch` | src/uevent.c:31-46 | frees a slot, runs the callback, adds what it yields: the server is one step further and the slots in use are again exactly the servers that wait |
| `Backend.EventLoop.Round` | src/uevent.c:31-46 | every server has had its own events of the round, in order, and no others |
| `Backend.EventLoop.Loop` | src/uevent.c:17-49 | for every schedule each server ends where its own events take it, with the bytes sent and answers counted that `Schedules` states for them; no slot is in use if and only if all exchanges are over, and then each holds the whole answers received by reads that did not fail, and errors for the rest |
| `Exchange.CourseTells` | src/proxy_client.c:99-210 | what a course yields are the first frames of the server's stream; without faults fewer than requests only before a broken one |
| `Exchange.FinishedTells` | src/proxy_client.c:164-210 | what a finished exchange leaves in the buffer is what its course yields: one answer per request, the real ones first, and what came after the last one |
| `Exchange.CutNoop` | src/proxy_command.c:82-87 | whatever a server sent, cutting 24 bytes off leaves every answer but the last whole |
| `Exchange.Converse` | src/proxy_client.c:23-40 | the queues go out and the buffers come back through the event loop: it is done if and only if every exchange comes to an end under the schedule; then each server was heard as its course says, queues and counts are reset, and the other buffers are as they were |
| `Batch.CountedSome` | src/proxy_command.c:23-62 | a batch is counted to its end or past seven requests, so at least one request is consumed |
| `Batch.TooManyIff` | src/proxy_command.c:54-61 | a request is sent and not counted if and only if eight servers own keys among the requests that fit one batch |
| `Batch.EightServers` | src/proxy_command.c:54-55 | every batch that starts with requests to eight different servers is one, and seven of its requests are counted |
| `Batch.EighthIsNew` | src/proxy_command.c:54-55 | the request that is sent but not counted is the first of the eighth server |
| `Pipeline.Proxy.Demux` | src/proxy_command.c:22-64 | every queue holds exactly the requests routed to it, in order, and the order table their destinations |
| `Pipeline.Proxy.Talk` | src/proxy_command.c:66-81 | each touched server is sent its queue and a no-op through the event loop; it is done if and only if every exchange ends under the schedule, and then all queues are empty and every touched buffer holds what that server's course yields |
| `Pipeline.Proxy.CutNoops` | src/proxy_command.c:82-87 | every touched buffer loses its last 24 bytes, the others nothing |
| `Pipeline.Proxy.Merge` | src/proxy_command.c:89-107 | one answer per counted request, in request order, each taken from the buffer of its own destination, and the rest of every buffer stays |
| `Pipeline.ReplyMatchesRequest` | src/proxy_command.c:89-107 | the answer passed on for a request is its own destination's answer at its rank in that destination's queue, also when equal requests get different answers |
| `Pipeline.ReplyIs` | src/proxy_client.c:99-197 | a request of rank r gets the r-th whole answer that its server's course received by reads that did not fail, and an error if and only if there are not so many |
| `Pipeline.Proxy.ProcessMulti` | src/proxy_command.c:9-109 | for every schedule, every stream and any bytes left in the buffers: done if and only if every exchange ends under the schedule; then the client's buffer grows by the replies to the counted requests in order, each the answer at its rank that its server's course yields or a made-up error, and every buffer keeps exactly what was not passed on |
| `Leftovers.NothingLeftIff` | src/proxy_command.c:54-107 | from empty buffers and servers that answer the no-op with a bare header last, all buffers end empty if and only if fewer than eight servers own keys among the requests of the batch; otherwise the eighth server's answer is left |
| `Leftovers.UncountedWasSent` | src/proxy_command.c:44-61 | the uncounted request has been sent to its server |
| `Leftovers.UncountedStays` | src/proxy_command.c:54-57 | what the proxy does not consume of the batch begins with that request |
| `Leftovers.SentAgain` | src/proxy_command.c:39-53 | a next batch that begins with it sends it, first, to the same server again |
| `Leftovers.EightGetsOverflow` | src/proxy_command.c:54-55 | eight GETs of one-byte keys with a server each: seven are counted, eight are sent |
| `Leftovers.LateReplies` | src/proxy_client.c:99-145 | answers left over at a server are the first replies of the next batch, and every later one is late by as many |
| `Leftovers.StaleAnswerIsNext` | src/proxy_command.c:54-107 | in the batch after one with an eighth server, the first request to it gets the answer that was left, and each one after gets the answer to the request before |
| `Drift.LateBatch` | src/proxy_command.c:82-87 | a batch that begins with one whole answer left over leaves exactly one, the last request's, if and only if the no-op's answer had arrived with it; otherwise that answer short of as many bytes as were missing, or nothing after a fault |
| `Drift.EveryReplyLate` | src/proxy_command.c:66-107 | over every sequence of such batches in time, every reply is the answer to the request before |
| `Drift.RestStays` | src/proxy_command.c:89-107 | what an exchange leaves after the cut is what the server's buffer holds when the batch is over |
| `Drift.TooLate` | src/proxy_client.c:131-143 | for any request and answers there is an exchange without faults in which the no-op's answer comes too late |
| `Drift.TooLateCourse` | src/proxy_client.c:131-143 | the course of that exchange: one send, one read, over |
| `Drift.SplicedIsSane` | src/framing.c:40-69 | an answer whose end is replaced by the end of a bare header passes as an answer of its own length, for bare headers and when the header's lengths are whole |
| `Drift.SplicedIsNext` | src/proxy_client.c:99-145 | then that frame is the first reply of the next batch, and it is the answer itself only if both ends are alike |
| `Drift.SplicedSize` | src/framing.c:40-69 | when the cut goes through the lengths of the header, exactly what the next exchange finds: nothing yet while less has arrived than is announced, then a broken frame or one of another length |
| `Drift.SplicedWaits` | src/proxy_client.c:134-135 | after a 33-byte answer that loses 24, the next exchange waits for more than eight megabytes |
| `Drift.SplicedBreaks` | src/proxy_client.c:131-133 | an answer of 32 bytes that loses 24 makes a broken header, and the next batch gets no answer at all |
| `Serving.ProxyServes` | src/connection.c:122-133 | the proxy's batch processing takes one or more whole requests of every batch, as the connection layer needs |
| `Serving.EngineTakesAll` | src/command.c:116-175 | the storage server consumes the whole of every batch whose pointer stays good |
| `Serving.EngineServes` | src/command.c:116-175 | so its batch processing too takes one or more whole requests of every batch |
| `Parsing.ParseConcat` | src/framing.c:40-69 | whole frames parse as themselves whatever follows, so a stream has one parse |
| `Connection.Conn.ReadAll` | src/connection.c:61-93 | exactly the arrivals of one burst leave the socket and exactly their bytes are appended; the connection closes if and only if the burst ends with the end of the stream or an error |
| `Connection.Conn.NextRequest` | src/connection.c:94-133 | a request is collected if and only if it is quiet and neither the buffer nor the batch is full; otherwise it ends the batch, which is handed over |
| `Connection.Conn.ProcessBatch` | src/connection.c:122-133 | a batch handed over is the next piece of the stream, quiet requests and one that is not quiet or reaches a limit; it is handed over only while less than one full buffer waits to be sent; it loses one or more whole requests from its front, and exactly its output goes to the send buffer |
| `Connection.Conn.Swallow` | src/connection.c:94-143 | ends waiting to write exactly when there is something to send, else with only quiet requests and part of one more; no byte received is lost or made up; terminates although it calls the sender, which calls it |
| `Connection.Conn.Recv` | src/connection.c:61-143 | the same for a readable socket, from which the whole burst is taken in; without socket errors it closes only at a broken request |
| `Connection.GrantTakes` | src/connection.c:149-170 | a socket with room for n bytes takes n, or all there are; one that refuses or fails takes none |
| `Connection.FlatIs` | src/connection.c:70-88 | what a stream delivers are the bytes of its arrivals, in order |
| `Connection.BurstIs` | src/connection.c:64-93 | receiving goes on exactly until an arrival does not fill the space offered |
| `Connection.Conn.Push` | src/connection.c:149-170 | when the socket takes n bytes, exactly the first n of the send buffer, or all of it, leave it and are sent; nothing when it refuses; it closes if and only if the send fails |
| `Connection.Conn.Send` | src/connection.c:145-180 | what is sent begins with all that the next grant takes; when that is not the whole buffer, exactly that is sent and it waits to write the rest |
| `Connection.Conn.ParsedExactly` | src/connection.c:61-143 | while it waits to read, the requests handed over and collected are exactly the frame parse of all bytes received |
| `Connection.Conn.Event` | src/connection.c:61-180 | after one event the connection has closed, or has used all grants while it waits to write, or has read all that arrived while it waits to read; bytes received and still to read are all that arrived before and now, and bytes sent and still grantable are no more than all grants |
| `Connection.Conn.Run` | src/connection.c:61-180 | over every run of events and every cut of the stream: bytes received are the bytes that arrived, all of them unless the connection closed or waits to write; the requests handed over are the first frames of their parse, each once, in order; every batch is the next piece of the stream and the bytes sent are their outputs, all of them while it waits to read, else as many as every grant given could take; what waits to be sent is always less than one full buffer and the output of one batch |
| `Freeze.Event.Modify` | src/event_loop.c:31-69 | add and delete calls strictly alternate and the last add asks for the current direction |
| `Freeze.Server.New` | src/connection.c:14-32 | a new connection is served unless the server is stopped |
| `Freeze.Server.Close` | src/connection.c:35-57 | closing the connection that stopped the server resumes all others; closing another leaves the stop with the connection that issued it |
| `Freeze.Server.Stop` | src/connection.c:182-198 | exactly the connection that asked stays registered |
| `Freeze.Server.Start` | src/connection.c:200-203 | every connection is registered |
| `Freeze.Server.Do` | src/connection.c:14-203 | each command or close changes connections, stop and stopper exactly as specified; after a start that is served every connection is registered, after a stop that is served only its own |
| `Freeze.StopperIssuedLastStop` | src/connection.c:182-203 | whenever a server that ran at first is stopped, its one served connection is the one that issued the last stop |
| `Freeze.StoppedIff` | src/connection.c:35-203 | a server that ran at first is stopped if and only if a served connection stopped it and, since then, none that was served started it or closed |
| `Freeze.Server.Run` | src/connection.c:14-203 | every run is a run of the specification; registered are exactly the connections it serves, so a running server serves all and a stopped one the connection of the last stop; it is stopped exactly as long as a stop is not lifted, and never frozen for good |
| `Storage.EntryRoundTrip` | src/storage.c:21-52 | reading back a value with its metadata suffix gives the value and the metadata |
| `Storage.DecodeInverts` | src/storage.c:21-52 | all data long enough for metadata is the encoding of the entry read from it |
| `Storage.MetaLies` | src/storage.h:3-8 | where flags, expiration and version lie in the suffix, each lowest byte first |
| `Storage.Disk.Get` | src/storage.c:21-31 | nothing exactly when the key is missing or its data is too short for metadata; otherwise the one entry whose encoding is stored there |
| `Storage.Disk.Set` | src/storage.c:33-52 | the store gains the value with its suffix, and the buffer it was laid over is as before |
| `Storage.Disk.Delete` | src/storage.c:54-57 | reports whether the key was there and removes it |
| `Commands.StoresWhen` | src/sys_commands.c:127-163 | SET, ADD and REPLACE succeed if and only if arguments, version and presence of the key allow it |
| `Commands.StoredIs` | src/sys_commands.c:131-162 | what a successful store leaves: the value, flags and expiration read from the extras highest byte first, and version 1 |
| `Commands.DeletesWhen` | src/sys_commands.c:171-181 | a deletion succeeds if and only if it is well formed and the key is there, and then the key is gone |
| `Commands.GetsWhen` | src/sys_commands.c:96-116 | a GET succeeds if and only if it is well formed and the key is there, and answers with the item's value and version |
| `Commands.NoopsWhen` | src/sys_commands.c:189-195 | a no-op succeeds if and only if it carries nothing |
| `Commands.StatusOf` | src/sys_commands.c:79-181 | each status if and only if its cause: wrong arguments, a key that is missing or there, another version, an unknown command |
| `Commands.ErrorTexts` | src/framing.c:127-152 | the texts of the statuses, letter by letter |
| `Commands.OtherErrors` | src/framing.c:141-143 | the text of every status without one of its own |
| `Commands.OnlyItsKey` | src/sys_commands.c:96-181 | a rejected request changes nothing and no request changes another key |
| `Commands.GetReturnsLastStore` | src/sys_commands.c:96-181 | after any history GET returns exactly the flags and value of the last successful store of the key |
| `Commands.VersionsStayOne` | src/sys_commands.c:135 | every stored version is 1 after any history |
| `Commands.VersionsDoNotDetect` | src/sys_commands.c:139-155 | a conditional SET succeeds if and only if the version given is 1 and the key exists |
| `Commands.LostUpdate` | src/sys_commands.c:139-155 | a conditional SET overwrites a change it should have noticed |
| `Dispatch.Engine.NextVersion` | src/sys_commands.c:135 | the version is 1 for every value of the 64-bit counter |
| `Dispatch.Engine.DoGet` | src/sys_commands.c:96-116 | answers as specified on the items behind the raw data |
| `Dispatch.Engine.DoSet` | src/sys_commands.c:127-163 | stores or refuses as specified, in place, and leaves the buffer as it was |
| `Dispatch.Engine.DoDelete` | src/sys_commands.c:171-181 | deletes or refuses as specified |
| `Dispatch.Engine.ProcessSingle` | src/sys_commands.c:13-46 | one request where it lies in the buffer gives the specified items and answer bytes |
| `Dispatch.Engine.Callback` | src/sys_commands.c:48-77 | a group has the outcome of its requests one by one, including those turned away by a full send buffer |
| `Buffers.Buffer.GetWriter` | src/buffer.c:65-97 | more than the bytes asked for are free, by the least number of whole steps, and the contents are the same; the block stays exactly when they were free before or it can grow in its place |
| `Buffers.Buffer.Consume` | src/buffer.c:116-123 | the contents lose their front; only an empty buffer gives its block back and starts at the beginning again |
| `Buffers.Buffer.ReadAll` | src/connection.c:61-93 | all that is available is appended, and at least one byte is free |
| `Dispatch.Engine.RunGroups` | src/command.c:125-174 | with a fixed table, running a batch in handler groups gives the same items and the same bytes as each request alone, in order, although stores overwrite the next request for a moment |
| `Dispatch.Engine.ProcessMulti` | src/command.c:116-175 | room is made behind the batch; its pointer stays good if and only if more than 16 bytes were free or the block can grow in its place, and then the batch has the outcome of its requests one by one, all of it is consumed, and the buffer is as before |
| `Dispatch.ReadAndProcess` | src/connection.c:61-125 | after one read into a new buffer the first batch is read through a good pointer if and only if the read left more than 16 bytes free or the block can grow |
| `Dispatch.LongRead` | src/command.c:121 | a read that leaves eight bytes of a new buffer free is one where it is not |
| `Escape.KeyEscape` | src/common.c:105-120 | writes the escaped name, the whole of it when three bytes per key byte fit |
| `Escape.KeyUnescape` | src/common.c:129-152 | the key a name stands for, or nothing for a broken escape or a key that is too long |
| `Escape.UnescapeInverts` | src/common.c:102-152 | unescaping the escaped name of any key gives the key |
| `Escape.UnescapePlain` | src/common.c:144-146 | a byte that is no percent sign is read as it is |
| `Escape.UnescapeCode` | src/common.c:129-152 | after a percent sign two digits are read as their byte, and a name with anything else there is refused |
| `Escape.NamesDiffer` | src/common.c:105-120 | different keys have different file names |
| `Escape.NamesAreSafe` | src/common.c:102-120 | a name holds only bytes that stand for themselves and percent signs |
| `Escape.Signs` | src/common.c:102-120 | which bytes stand for themselves, character by character, and how the others are written |
| `Escape.UnhexInverts` | src/common.c:202-252 | decoding the hexadecimal text of any key gives the key |
| `Escape.UnhexWhen` | src/common.c:221-252 | a text stands for a key if and only if it is an even number of digits, and the key has half as many bytes |
| `Escape.UnhexByte` | src/common.c:236-243 | every byte is read from its own two digits, the higher first |
| `Escape.EncodeHex` | src/common.c:202-219 | the hexadecimal text of a key of up to 256 bytes |
| `Escape.DecodeHex` | src/common.c:221-252 | the bytes of a text, or nothing for an odd or wrong digit or more than 256 bytes |
| `Text.SplitLine` | src/proxy_config.c:14-48 | after the in-place cut the offsets returned are zero-terminated texts of exactly the pieces of the line, in order and apart, and nothing outside the line changed |
| `Config.AtoiDecimal` | src/proxy_config.c:50-60 | a printed number reads back as itself |
| `Grammar.NumberIs` | src/proxy_config.c:56 | digits are read as the sum of each times the power of ten of its place |
| `Grammar.AtoiIs` | src/proxy_config.c:56 | with a sign or without, and whatever follows the digits |
| `Grammar.DecimalIs` | src/proxy_config.c:224-227 | a number is printed as the digits of that value, without a zero in front |
| `Grammar.Characters` | src/proxy_config.c:14-76 | which characters end a line, a word and a host, start a comment, and are digits |
| `Config.HostPortText` | src/proxy_config.c:50-60 | a printed host and port read back as themselves |
| `Grammar.HostPortReads` | src/proxy_config.c:50-60 | a host, a colon and digits read as that host and number if it is from 1 to 65535, and as nothing otherwise |
| `Grammar.ProxyWordsRead` | src/proxy_config.c:79-92 | a proxy line gives that proxy, or a bad host if its port is out of range |
| `Grammar.OtherLines` | src/proxy_config.c:74-125 | a line without words is skipped, and no other; the wrong number of words or another keyword is refused |
| `Grammar.ServerWordsRead` | src/proxy_config.c:94-121 | the words of a server line, with and without a key, give that server or the first fault in them, for every port, weight and length of key |
| `Grammar.ServerLineIs` | src/proxy_config.c:224-227 | one server line as printed, letter by letter |
| `Config.ServerLineReads` | src/proxy_config.c:94-121 | a printed server line reads back as the same server, key included |
| `Config.ProxyLineReads` | src/proxy_config.c:79-92 | a printed proxy line reads back as the same proxy |
| `Config.ReadInvertsPrint` | src/proxy_config.c:198-234 | printing any well-formed configuration of fewer than 1024 lines and reading the text, for real or for a trial, gives the same proxies and servers |
| `Config.RunOnServerBreaks` | src/proxy_config.c:35-44 | a server line that is not cut off at its end is refused |
| `Config.ReadInvertsPrintIff` | src/proxy_config.c:63-73 | a well-formed configuration survives printing and reading if and only if it has fewer than 1024 lines |
| `Config.GetHostPort` | src/proxy_config.c:50-60 | cuts a word at its colon in the buffer and changes nothing outside the word |
| `Config.ReadLine` | src/proxy_config.c:74-126 | cuts a line into words and reads its entry, all inside the line |
| `Config.Load` | src/proxy_config.c:63-143 | lines, words and hosts are cut in the one buffer, and the outcome is the reading of the original text, with the first fault and its line |
| `Grammar.LoadedMeans` | src/proxy_config.c:63-137 | every text that is accepted names a proxy and a server, all ports and weights in range, and nothing twice unless it is a trial |
| `Grammar.RefusedWhere` | src/proxy_config.c:138-142 | a text that is refused is refused at its first wrong line with that line's fault, or behind the last line for want of a proxy or a server |
| `Config.Print` | src/proxy_config.c:184-234 | the printed text if it is shorter than the buffer, the text with its last byte overwritten if it is as long, an error if it is longer |
| `Grammar.PrintedReads` | src/proxy_config.c:184-234 | a text shorter than the buffer reads back as the configuration it was printed from; one that just fits loses its last byte, and a longer one is refused |
| `Reconfigure.TestMissesRepeats` | src/proxy_config.c:63-143 | the real load succeeds if and only if the trial load does and no proxy and no start key is repeated, and then both read the same |
| `Reconfigure.Holder.SetConfig` | src/proxy_sys_command.c:80-124 | each outcome if and only if its condition holds: refused arguments, a broken text, a proxy that is not stopped, installed, or fatal when an entry is repeated; the old configuration stays in all but the last two |
| `Reconfigure.SplitInstalls` | client/smalltable/manager.py:121-131 | the text with one server more passes the trial; it loads, and adds exactly that start key to the ranges, unless the key is a start key already |
| `Listing.TraverseFiles` | src/sto_fs.c:287-325 | the page is filled with exactly the files after the given name that have a readable name and status, until one does not fit |
| `Listing.TraverseSubs` | src/sto_fs.c:257-285 | the same over the subdirectories from the second hash on |
| `Listing.TraverseDirs` | src/sto_fs.c:228-255 | the same over the directories from the first hash on |
| `Listing.ResumeDirs` | src/sto_fs.c:210-325 | starting at the hashes of a stored file visits exactly the files after it in the whole list |
| `Listing.FsGetKeys` | src/sto_fs.c:210-226 | the page for any start key, stored or not, is filled from the files that the traversal from its hashes visits |
| `Listing.ParsePage` | client/smalltable/simpleclient.py:477-496 | the client takes a page apart into the items the server put in |
| `Listing.ShownComplete` | src/sto_fs.c:303-321 | a key and version are in the reference list if and only if the key has a legal size, its file is in some directory and its status shows that version; keys come in the order of their files |
| `Listing.GetKeys` | client/smalltable/simpleclient.py:498-507 | paging through an unchanging store ends and lists every key of 1 to 255 bytes whose file is in some directory, with the version that its status shows, and nothing else, no key twice, in the order of the files |
| `CallGraph.ReachTrans` | client/gprof2dot.py:265-294 | reachability along calls is transitive |
| `Tarjan.PoppedIsComponent` | client/gprof2dot.py:286-293 | what is popped when lowlink equals order is a whole strongly connected component |
| `FindCycles.Profile.AddFunction` | client/gprof2dot.py:209-217 | the function joins the cycle and nobody else does: the loop over an older cycle never runs |
| `FindCycles.Profile.MakeCycle` | client/gprof2dot.py:201-217 | gives all members one new cycle |
| `FindCycles.Profile.Visit` | client/gprof2dot.py:265-294 | a visit keeps the search invariant, explores all that is reachable and settles complete components |
| `FindCycles.Profile.SearchFrom` | client/gprof2dot.py:249-253 | a search from a later root with fresh orders keeps what earlier roots settled |
| `FindCycles.Profile.FindCycles` | client/gprof2dot.py:246-262 | two functions share a cycle if and only if each reaches the other, every cycle is a whole component, functions outside have none, and the list of cycles is exact and without repetition |
| `FindCycles.SharedIffMutual` | client/gprof2dot.py:246-294 | whole components in one cycle each are the same as sharing exactly between functions that reach each other |
| `Whirlpool.OrHolds` | vx32/src/hash/whirlpool.c:1563-1566 | or-ing a shifted byte into the open slot appends its bits |
| `Whirlpool.TakenByte` | vx32/src/hash/whirlpool.c:1558-1562 | a byte shifted together from two source bytes holds the next eight bits |
| `Bitstrings.StreamNumber` | vx32/src/hash/whirlpool.c:1518-1562 | the bits of a source are the lowest binary digits of the number that its bytes stand for |
| `Bitstrings.PaddedShape` | vx32/src/hash/whirlpool.c:1638-1694 | a padded message is whole blocks: the message, a one bit, zeros no more than the next block boundary asks for, and the length as a number of 256 bits |
| `Bitstrings.HashedBlocks` | vx32/src/hash/whirlpool.c:1566-1580 | every further block is compressed into the hash of those before it |
| `Whirlpool.Hasher.Tally` | vx32/src/hash/whirlpool.c:1543-1552 | the 256-bit counter grows by the length, modulo 2 to the 256th |
| `Whirlpool.Hasher.Add` | vx32/src/hash/whirlpool.c:1518-1631 | for every bit length and alignment the message grows by exactly the source bits, whole blocks are hashed, fewer than 512 bits wait with zeros after them, and the length is tallied |
| `Whirlpool.Hasher.Finalize` | vx32/src/hash/whirlpool.c:1638-1694 | the result is the chained hash of the message with a one bit, zeros and its 256-bit length |
| `Whirlpool.HashPieces` | vx32/src/hash/whirlpool.c:1803-1845 | however a bit string is cut into pieces, the digest is that of the whole string |
| `Sched.CountUpdate` | vx32/src/9vx/sched.c:82-162 | how the counts of waiting and coming cpus follow one cpu's change |
| `Sched.Scheduler.Ready` | vx32/src/9vx/sched.c:82-116 | the proc is queued last, a cpu is created exactly when the queue has outgrown the waiting cpus, and the invariant holds when the lock is released |
| `Sched.Scheduler.RunProc` | vx32/src/9vx/sched.c:123-162 | a cpu takes the first proc or falls asleep, and the invariant holds |
| `Sched.Scheduler.Pwakeup` | vx32/src/9vx/sched.c:220-233 | exactly the cpu that fell asleep last is woken |
| `Sched.Scheduler.Psleep` | vx32/src/9vx/sched.c:204-218 | the cpu joins the waiters and is counted |
| `Sched.LastAsleepWakesFirst` | vx32/src/9vx/sched.c:82-233 | a cpu that falls asleep is the one that the next readied proc wakes, and it starts that proc |
| `Sched.Scheduler.NoLostWakeup` | vx32/src/9vx/sched.c:82-162 | whenever the lock is free and a kproc is queued, some cpu is new or woken |
| `Sched.Scheduler.Run` | vx32/src/9vx/sched.c:82-162 | every interleaving is a run of the specified steps on queue, history, cpus, waiters and marks, and keeps the invariant: queued kprocs are at most the new and woken cpus, and the counter is new plus sleeping plus woken |
| `Sched.Scheduler.Settle` | vx32/src/9vx/sched.c:123-162 | once the new and woken cpus have looked, everything readied has started, in the order it was readied |

## Left out

- Packing of parent and colour in one word: the model has two fields.
- `rb_last`, `rb_prev` and `rb_replace_node`: mirrors of what is modelled, with no caller here.
- Buffers are byte sequences outside `Buffers` and `Dispatch.Engine.ProcessMulti`; a block that was given back is a new one when it is taken again.
- Dispatch.Engine.ProcessMulti: says nothing about what happens once the batch is read through a pointer to memory that was given back, which the language does not define.
- The manager's boundary is any key that the first listing shows and that is no start key, not the one at the weight ratio; its batches of 64000 keys are single-key steps in any order, which allows more runs; its second listing is one step, because clients are locked out; the removal of extra keys from the new server does not occur, because it starts empty.
- The version that a listing shows for a key is taken not to come back during a split, which file sizes and times do not guarantee; `SplitLimits` and `FileVersions` say what happens otherwise.
- A manager that dies between set_config calls is not a step of the protocol; `CrashWhileSwitching` says what it does.
- Conditional commands (with a version) during a split.
- Backoff times of a broken server: whether a retry is due is an input.
- Answers of the proxy's own commands are an input of `ProcessMulti`; replacing the configuration inside a forwarded batch is left out.
- Pipeline.Proxy.ProcessMulti: takes a finite schedule; when some exchange does not end under it, only that nothing was passed on is stated.
- Backend.EventLoop.Loop: takes a finite schedule, since servers may stay silent for ever.
- Commands that run as plugin processes, `VERSION`, `GET_KEYS` inside a batch, and changes of the dispatch table within a batch.
- Values that do not fit the answer buffer of GET; the disk always succeeds.
- Escape.KeyUnescape: does not model the byte read past the end of a name that stops inside an escape; the name is refused.
- The two hash functions of a file name are arbitrary functions, and truncated names of long keys are left out.
- Numbers too large for an int and bytes above 127 in a line of a configuration; the file that a new configuration is saved to.
- Reconfigure.Holder.SetConfig: the configuration is a list of proxies and servers; that the server list is a red-black tree is the subject of `StServer`.
- The compression function of Whirlpool is an arbitrary function of the state and 512 bits, and the conversion of the final state to bytes is left out.
- The scheduler's normal procs on cpu0, spurious wakeups (absorbed by the loop inside psleep) and a failing newmach.
- Everything else in gprof2dot, 9vx and vx32, the Python client, plugins, logging and statistics.
