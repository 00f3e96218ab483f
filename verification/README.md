# Verified models of pdi-framework's hard parts

A Dafny model of four parts of pdi-framework, a C++ framework for esp8266 and esp32 devices, with
proofs of what those parts promise. `dafny verify dfyconfig.toml` checks the whole project.

* **Streaming file access** (`Pattern`, `FileReader`, `FileSearch`, `LineSpec` and `FileLines`,
  `FileEdit`, `Paths` and `Directories`): the littlefs wrapper reads files in fixed-size chunks, finds
  patterns with a sliding window, searches from the start or the end, converts between offsets and
  lines, edits sparsely, and creates and deletes directory trees. Each operation is proved against a
  definition over the whole file or the whole tree that knows nothing of chunks, windows and counters.
* **Connections over lwIP** (`TcpSystem`, `TcpInterfaces`, `TcpNetwork`, `TlsReceive`, `DnsLookup`):
  `TcpSystem` is a state machine whose runs interleave the server's pending slot, the clients and
  lwIP's callbacks; its theorems hold in every state of every run. `TcpInterfaces` has the classes of
  the source, and `TcpNetwork` puts their objects together: every call and every callback takes
  exactly a step of that machine and keeps its invariant. `TlsReceive` is the TLS receive queue with
  its window credit, `DnsLookup` the lookup inside `connect`.
* **The esp32 TLS session** (`TlsSession`, `TlsPeek`): three threads share one mbedTLS context without
  a lock on it; in `TlsSession` a step makes one access to a field that another thread may change at
  that moment, and the steps interleave freely. `TlsPeek` is the one-byte buffer between `available`
  and `read`.
* **Certificates** (`CertChain`, `TrustAnchors`, `SubjectAltName`): the two-pass PEM loader, its blocks
  on an explicit heap where any allocation may fail, and the printer, parser and matcher of the
  subject alternative name.

Device and network are parameters: schedules of read, write and device errors, of allocations that
fail, of segments, callbacks and answers. A theorem holds for every schedule.

`Words` has the few numbers and codes that the others share.

## Where the code does less than it seems to promise

Each of these has its exact condition as a lemma over all inputs or all runs; where it takes more than
the condition to see it happen, there is an input or a run as well.

* A search from the end ignores an error of its counting pass (`FileSearch.FailedCount`,
  `FileSearch.FailedCountRun`), and a search string of 65536 bytes or more is never found
  (`FileSearch.TooLongToFind`).
* `getOffsetFromLineNumber` with a negative number ignores an error of its last-byte read, and then
  counts an unterminated last line out (`FileLines.CountMatters`, `FileLines.UnnoticedError`).
* `getLineNumbersInFile` returns no line start when no newline follows the offset
  (`FileLines.StartsListed`).
* The 16-bit scan index of `readFile` wraps in a chunk above 65535 bytes: the scan then goes on for ever or
  reports a match that is not there, unless there is one within 65536 bytes (`FileReader.ScanEndsExactly`,
  `FileReader.HitIsRight`, `FileReader.FalseMatch`).
* `createDirectory` returns success where a prefix of the path names a file
  (`Directories.CreatedIsDirectory`, `Directories.CreateOverFile`), and `deleteDirectory` builds child
  paths that lead elsewhere when they do not fit (`Directories.ChildPathLeads`,
  `Directories.ChildPathEscapes`); it then fails or exhausts the stack, and still harms nothing outside its
  directory (`Directories.Tree.DeleteDirectory`).
* A pcb whose `tcp_close` fails is left without an owner (`TcpSystem.StrayExactly`, `TcpSystem.StrayRun`).
* A FIN callback of a plain client whose close fails aborts the pcb and still replies ERR_OK, against
  lwIP's rule (`TcpSystem.AbortRule`, `TcpSystem.AcceptedRun`).
* A FIN is reported although data was refused before it (lwip/src/core/tcp_in.c:394-415), and that data is lost
  (`TcpSystem.FinCompletes`, `TcpSystem.FinAfterRefusal`); on a pcb that still waits it is all that arrived
  (`TcpSystem.FinWhileWaiting`).
* The error callback of a plain client uses the pcb. lwIP's sources free it after that callback
  (lwip/src/core/tcp.c:387, 953 and lwip/src/core/tcp_in.c:349), its header says before
  (lwip/include/lwip/tcp.h:104); the order is a parameter here (`TcpSystem.MisusedExactly`,
  `TcpSystem.AcceptedRun`).
* A segment above nine tenths of `TLS_IBUF_SIZE` is refused for ever (`TlsReceive.StallsForever`), and a close
  in the middle of a round does not credit what the round drained (`TlsReceive.CloseCredits`,
  `TlsReceive.LostCredit`).
* `available` promises bytes that a `read` does not give if the session fails or is closed in between
  (`TlsPeek.PromiseKept`).
* `stopTlsWorker` can delete the caller or a task that has ended (`TlsSession.WrongDeleteExactly`,
  `TlsSession.DeletesItself`), and a server's failed setup can free the context under an lwIP callback
  (`TlsSession.WildMarkExactly`, `TlsSession.SetupFailsUnderCallback`, `TlsSession.CallbackFindsFreed`).
* A short write of the certificate counts as success (`SubjectAltName.EnsuredStays`,
  `SubjectAltName.ShortWriteForgotten`).

## Model

| member | source | states |
|---|---|---|
| Pattern.LeastOccurrence | src/utility/StringOperations.cpp:25-51 | a search result is the least occurrence, and no result means there is none |
| Pattern.GreedyOccur | external/LittleFSWrapper.cpp:387-459 | every position of the greedy list is an occurrence in range |
| Pattern.GreedyDisjoint | external/LittleFSWrapper.cpp:387-459 | two positions of the greedy list are at least a pattern length apart, in order |
| Pattern.GreedyComplete | external/LittleFSWrapper.cpp:387-459 | every occurrence is listed or overlaps one that is: the greedy list is maximal |
| Pattern.StrStr | src/utility/StringOperations.cpp:25-51 | the index of the first occurrence among the first `len` starts, or -1 when there is none; nothing past the terminator is read |
| Pattern.WindowTest | external/LittleFSWrapper.cpp:260-280 | on a window of pattern length the search says 0 exactly when the window is the pattern |
| FileReader.ScanChunk | external/LittleFSWrapper.cpp:256-281 | the scan loop with its 16-bit index: it stops at the first turn that sees the pattern in the window and reports the wrapped index, or leaves a chunk of at most 65535 bytes with the window carried on |
| FileReader.ReadFile | external/LittleFSWrapper.cpp:209-306 | for every chunk size with which it ends: full chunks in order that concatenate to the bytes after the offset, the result is their length; with a match string it is the index of the last byte of the first occurrence, straddling or not, and this is so if and only if no chunk is too long for the index or the match ends within 65536 bytes; an error exactly when a read failed |
| FileReader.ScanEndsExactly | external/LittleFSWrapper.cpp:260-280 | the scan of a chunk ends if and only if the chunk has at most 65535 bytes or the pattern comes up before the index has gone round once and a pattern length further |
| FileReader.HitIsRight | external/LittleFSWrapper.cpp:260-280 | an occurrence ends where a scan says if and only if its index had not wrapped |
| FileReader.RightEnds | external/LittleFSWrapper.cpp:244-296 | a read whose answer is right ends |
| FileReader.FalseMatch | external/LittleFSWrapper.cpp:260-280 | a chunk of 65536 bytes without the pattern in which the scan reports it, across the wrap |
| FileSearch.NthFromEnd | external/LittleFSWrapper.cpp:398-453 | starting the count at `total % n + 1` and keeping the newest pick leaves the n-th occurrence from the end, or nothing when there are fewer |
| FileSearch.EvictionKeepsLast | external/LittleFSWrapper.cpp:425-437 | evicting the oldest on overflow is keeping the last ones of the unlimited list |
| FileSearch.PickedShape | external/LittleFSWrapper.cpp:425-437 | the picks are exactly every step-th occurrence from the first one on |
| FileSearch.NextMatch | external/LittleFSWrapper.cpp:413-424 | one turn of the search finds the least occurrence at or after the position, or says that there is none |
| FileSearch.SearchLoop | external/LittleFSWrapper.cpp:412-459 | the loop ends, and has selected from the greedy occurrences what the request asks for |
| FileSearch.FindInFile | external/LittleFSWrapper.cpp:387-459 | for every combination of arguments: how many greedy occurrences were passed, which were kept, and for each of the two passes an error exactly when one of its reads failed, with that code |
| FileSearch.FindEvery | external/LittleFSWrapper.cpp:387-459 | an unlimited forward search returns the greedy occurrences, every k-th of them for k > 1 |
| FileSearch.FindLimited | external/LittleFSWrapper.cpp:401-459 | a limited forward search returns the first of the indices of the unlimited one: as many as the limit, or a k-th of it when every k-th is wanted |
| FileSearch.CountLimited | external/LittleFSWrapper.cpp:401-459 | a limited forward search without a vector counts up to that limit |
| FileSearch.TooLongToFind | external/LittleFSWrapper.cpp:217-227 | a search string of 65536 bytes or more is missed exactly where it occurs |
| FileSearch.FindFromEnd | external/LittleFSWrapper.cpp:398-453 | maxindices = everynthindice = n and offset = -filesize give the n-th occurrence from the end of the file, or nothing |
| FileSearch.FailedCount | external/LittleFSWrapper.cpp:407-411 | after a counting pass that failed, the selection is right if and only if a condition on the code, n and the total holds |
| FileSearch.FailedCountRun | external/LittleFSWrapper.cpp:407-411 | a search whose first device read fails with -5: the count fails, the search succeeds, and the second occurrence from the end is missed |
| LineSpec.LineAdjoint | external/LittleFSWrapper.cpp:468-640 | line starts and line numbers are adjoint: line n starts at or before o if and only if o lies in line n or later |
| LineSpec.LineOfLineStart | external/LittleFSWrapper.cpp:468-640 | the line number of the start of line n is n, for every n up to the newline count |
| LineSpec.StartOfLineAt | external/LittleFSWrapper.cpp:571-640 | the start of the line of an offset begins the line that contains the offset: no newline lies between |
| LineSpec.LineStartUnique | external/LittleFSWrapper.cpp:500-530 | the start of line n is the one position after a newline with n newlines before it |
| LineSpec.SplitCount | external/LittleFSWrapper.cpp:472-497 | the line count, with or without a final newline, is the number of pieces of the file split at newlines |
| LineSpec.SplitIsLines | external/LittleFSWrapper.cpp:692-707 | the n-th piece is the text from the start of line n to its newline or the end |
| LineSpec.SplitJoin | external/LittleFSWrapper.cpp:692-757 | the pieces put together with newlines are the file, but for one it may lack at its end, and none of them has a newline inside |
| LineSpec.LineExists | external/LittleFSWrapper.cpp:692-707 | line n exists if and only if its start lies before the end of the file |
| FileLines.TotalLines | external/LittleFSWrapper.cpp:472-497 | the lines counted for negative numbers: the lines, or the newlines when the read of the last byte failed unnoticed |
| FileLines.SeekDelivered | external/LittleFSWrapper.cpp:500-530 | counting newlines over chunks stops at the start of line n of the whole file |
| FileLines.GetOffsetFromLineNumber | external/LittleFSWrapper.cpp:468-562 | the start of line n; from the end, the start of the line that the counted lines make it, which is the right one if and only if the last-byte read succeeded or the file is unaffected; -1 when there is no such line; errors |
| FileLines.CountMatters | external/LittleFSWrapper.cpp:483-496 | counting newlines instead of lines changes the answer exactly for files that do not end in a newline and lines that exist |
| FileLines.UnnoticedError | external/LittleFSWrapper.cpp:483-496 | one line without a newline and a failing last-byte read: the last line is not found |
| FileLines.CountDeliveredTo | external/LittleFSWrapper.cpp:586-608 | counting newlines over chunks up to an offset counts those of the whole file before it |
| FileLines.GetLineNumberFromOffset | external/LittleFSWrapper.cpp:571-640 | the number of the line that contains the offset, from the end for negative offsets; an error exactly when a read failed |
| FileLines.StartsListed | external/LittleFSWrapper.cpp:651-681 | the list is exactly the line starts from the offset on if and only if a newline follows the offset or the offset is the end |
| FileLines.StartsPrefix | external/LittleFSWrapper.cpp:651-681 | a limited list is the beginning of the unlimited one |
| FileLines.NewlinePositions | external/LittleFSWrapper.cpp:651-681 | the greedy search for a newline lists every newline, in order |
| FileLines.GetLineNumbersInFile | external/LittleFSWrapper.cpp:651-681 | the list of line starts for every limit, from the start of the asked line, or from 0 when that could not be found, and its length |
| FileLines.ReadLineInFile | external/LittleFSWrapper.cpp:692-765 | the n-th piece of the file split at newlines, without the carriage return at its end if there is one, with its length; negative n from the end, by the lines that were counted; -1 or -99 without such a line, and an error when a read that is looked at failed |
| FileEdit.OpenFile.Write | external/LittleFSWrapper.cpp:136-158 | a write overlays the bytes it reports, also a short or torn one |
| FileEdit.Pad | external/LittleFSWrapper.cpp:128-145 | padding with any positive short writes appends exactly the missing zeros, and stops exactly on an error, on no progress or at the size limit |
| FileEdit.PadEndMeans | external/LittleFSWrapper.cpp:134-142 | the padding gets through with writes that all make progress, or a write that makes none ends it |
| FileEdit.Volume.EditFile | external/LittleFSWrapper.cpp:114-165 | a successful edit is the old content, zero-extended to the offset and overlaid; any other outcome is a beginning of that; success if and only if the padding gets through, however short its writes, the seek works, the last write is not short and the file stays below the size limit; the code of every other outcome |
| FileEdit.OutsideUntouched | external/LittleFSWrapper.cpp:114-165 | on any return, bytes outside the edited range are old, or zero past the old end |
| FileEdit.ReadBack | external/LittleFSWrapper.cpp:209-306 | a read at the offset with any chunk size gives the data back first |
| Paths.ResolveChild | external/LittleFSWrapper.cpp:823-825 | appending a slash and an entry's name to a path leads to that entry |
| Paths.TextResolves | external/LittleFSWrapper.cpp:823-825 | a path of proper names that is written out leads back to itself |
| Directories.Tree.CreateDirectory | external/LittleFSWrapper.cpp:773-803 | with lookups that fail and directories made in spite of an error: adds nothing but directories at prefixes of the path, leaves all else, all prefixes exist on success, repeating it changes nothing, and it fails without a fault only where a prefix cannot be made |
| Directories.CreateWorks | external/LittleFSWrapper.cpp:773-803 | without a fault, a path of proper names that are not too long, that fits the buffer and has no file on it, and every prefix of it, names a directory afterwards |
| Directories.CreatedIsDirectory | external/LittleFSWrapper.cpp:773-803 | after success a prefix is a directory if and only if it was not a file before |
| Directories.CreateOverFile | external/LittleFSWrapper.cpp:773-803 | a path that names a file counts as created already |
| Directories.Tree.DeleteDirectory | external/LittleFSWrapper.cpp:810-847 | for every tree and a path below 256 bytes: nothing outside the directory changes on any outcome, on success exactly its subtree is gone, and without faults and with stack enough it succeeds if and only if every child path fits the buffer |
| Directories.EntryActs | external/LittleFSWrapper.cpp:823-840 | whatever the lengths, deleting an entry takes away nothing outside its directory and nothing whose path does not fit; a path that fills the buffer stands for itself again and nothing changes |
| Directories.EntriesCover | external/LittleFSWrapper.cpp:819-842 | what lies below a directory lies below one of its entries |
| Directories.ChildFits | external/LittleFSWrapper.cpp:823-829 | when the paths of a tree fit the child buffer, so do those of each subtree |
| Directories.ChildPathLeads | external/LittleFSWrapper.cpp:823-825 | the path built for an entry leads to that entry if and only if it fits the buffer, or the directory's path is longer than the buffer and its first 255 bytes happen to lead there |
| Directories.ChildPathEscapes | external/LittleFSWrapper.cpp:823-825 | past the buffer, the path built for an entry named ..x leads to the directory above |
| TcpSystem.OneOwner | devices/esp8266/TcpServerInterface.cpp:32-208 | in every state of every run each pcb has exactly one owner, and was used after its release if and only if lwIP freed it before reporting to a plain client; the server is its argument exactly while it waits; hasClient exactly while the slot is filled |
| TcpSystem.StrayExactly | devices/esp8266/TcpServerInterface.cpp:58-148 | in every run a pcb turns stray with an event if and only if that event is a failing close by the server of the pcb that waits, or by a TLS client of its own; it stops being stray if and only if lwIP closes or resets it |
| TcpSystem.StrayRun | devices/esp8266/TcpServerInterface.cpp:58-75 | a run in which a pcb turns stray |
| TcpSystem.MisusedExactly | devices/esp8266/TcpClientInterface.cpp:393-415 | in every run a pcb is used after it is gone if and only if lwIP freed an attached plain client's pcb before it called the error callback, the order of lwip/include/lwip/tcp.h:104 |
| TcpSystem.LosslessHandoff | devices/esp8266/TcpClientInterface.cpp:290-388 | in every state of every run, bytes read plus bytes buffered are a prefix of the peer's stream from byte 0 until a flush, also after a disconnect; received = credited + buffered; the window is never exceeded |
| TcpSystem.FinCompletes | devices/esp8266/TcpClientInterface.cpp:344-388 | a FIN leaves the client with the whole stream if and only if no data was refused before it |
| TcpSystem.FinAfterRefusal | devices/esp8266/TcpClientInterface.cpp:344-388 | a run in which a byte is refused, the FIN comes and the client never sees the byte |
| TcpSystem.FinWhileWaiting | devices/esp8266/TcpServerInterface.cpp:129-148 | in every run a FIN for a pcb that waits loses all that arrived on it: nothing had reached a client, and no client ever gets the pcb |
| TcpSystem.AbortRule | devices/esp8266/TcpClientInterface.cpp:161-181 | a callback replies ERR_ABRT exactly when it aborted its pcb, except for exactly one case, the FIN whose close fails |
| TcpSystem.PollAborts | devices/esp8266/TcpServerInterface.cpp:150-208 | in every run a poll d milliseconds after a pcb came, across the wrap of the clock, aborts the pcb if and only if it still waits, there is a timeout and d exceeds it |
| TcpSystem.ConnectedExactly | devices/esp8266/TcpClientInterface.cpp:161-181 | in every run a client says that it is connected if and only if it has its pcb, which is then open |
| TcpSystem.AcceptedRun | devices/esp8266/TcpClientInterface.cpp:344-415 | a run to an accepted connection, where a FIN with a failing close breaks the rule and a reset that frees first is a use after the release |
| TcpSystem.StepKeeps | devices/esp8266/TcpServerInterface.cpp:32-208 | every step of the server, a client or lwIP keeps the invariant of the whole system |
| TcpSystem.CreditFits | devices/esp8266/TcpClientInterface.cpp:290-315 | the 16-bit credit of a read never wraps, because what is buffered is inside one window |
| TcpNetwork.Network.Lost | devices/esp8266/TcpServerInterface.cpp:121-127 | on the whole of server, clients and lwIP: the slot is emptied if and only if the lost pcb waited there, the client that held it has no pcb any more, and a freed pcb is used if and only if a plain client held it and lwIP freed it first |
| TcpInterfaces.TcpServer.OnPendingRecv | devices/esp8266/TcpServerInterface.cpp:129-148 | data is refused untouched; a FIN empties the slot and closes the pcb, and a close that fails is left at that |
| TcpNetwork.Network.CloseServer | devices/esp8266/TcpServerInterface.cpp:58-75 | the server does not listen any more, its slot is empty, and the pcb that waited is closed, or stray if and only if the close failed |
| TcpNetwork.Network.Begin | devices/esp8266/TcpServerInterface.cpp:32-53 | a new start first closes, and listens with an empty slot exactly when it came up |
| TcpNetwork.Network.AcceptTls | devices/esp8266/TlsServerInterface.cpp:83-110 | the pcb that waits becomes a TLS client's; without memory for one it is aborted, and when the setup fails closed, or stray if and only if that close failed |
| TcpNetwork.Network.CloseTls | devices/esp8266/TlsClientInterface.cpp:673-683 | the client has no pcb any more, and the pcb is closed, or stray if and only if the close failed; the whole keeps its invariant |
| TcpInterfaces.TcpClient.constructor | devices/esp8266/TcpClientInterface.cpp:42-59 | the new owner's callbacks replace the server's |
| TcpInterfaces.TcpClient.Disconnect | devices/esp8266/TcpClientInterface.cpp:161-181 | the pcb is closed, or aborted when that fails; what is buffered stays readable |
| TcpInterfaces.TcpClient.Flush | devices/esp8266/TcpClientInterface.cpp:577-602 | the buffer is dropped and its bytes credited |
| TcpNetwork.Network.CloseClient | devices/esp8266/TcpClientInterface.cpp:186-190 | a closed client has no pcb and no bytes, keeps what was read, its pcb is closed, or aborted if that failed, and what it drops is not credited; the whole keeps its invariant |
| TcpInterfaces.TcpClient.Read | devices/esp8266/TcpClientInterface.cpp:290-315 | copies the front of the buffer, keeps the rest in order, credits what was copied |
| TcpNetwork.Network.Deliver | devices/esp8266/TcpClientInterface.cpp:344-388 | data for a waiting pcb changes nothing; a client takes a segment whole exactly when there is memory, as the next bytes of the stream; the whole keeps its invariant |
| TcpNetwork.Network.Finish | devices/esp8266/TcpClientInterface.cpp:344-388 | a FIN empties the slot of a waiting pcb and closes it, and leaves a plain client without a pcb, which is closed or aborted, and with all its bytes; the whole keeps its invariant |
| TcpNetwork.Network.OwnedByOne | devices/esp8266/TcpServerInterface.cpp:32-208 | whatever was called, in whatever order: each pcb of the objects has one owner |
| TcpNetwork.Network.InOrder | devices/esp8266/TcpClientInterface.cpp:290-388 | whatever was called, in whatever order: what a client object has read and buffers is a beginning of what arrived, and credit is conserved |
| TcpNetwork.Network.NewPcb | devices/esp8266/TcpServerInterface.cpp:178-208 | the newcomer waits and whoever waited before it is aborted; the whole keeps its invariant |
| TcpNetwork.Network.Polled | devices/esp8266/TcpServerInterface.cpp:150-169 | a waiting pcb is aborted, its slot freed and ERR_ABRT replied if and only if there is a timeout and the 32-bit clock has gone further than that, also across its wrap |
| TcpNetwork.Network.Read | devices/esp8266/TcpClientInterface.cpp:290-315 | what a read returns comes next in the peer's stream |
| TcpNetwork.Network.Accept | devices/esp8266/TcpServerInterface.cpp:97-111 | the pcb that waits becomes a client's, if one waits; the whole keeps its invariant |
| TlsReceive.CreditConserved | devices/esp8266/TlsClientInterface.cpp:865-994 | over every run, closes included: received = credited + reclaimed + queued while there is a pcb, the engine got a prefix of the stream and the queue is what follows it, and the queue stays within nine tenths of the buffer size |
| TlsReceive.DrainKeeps | devices/esp8266/TlsClientInterface.cpp:930-994 | the 16-bit `reclaimed` never wraps within a round |
| TlsReceive.StallsForever | devices/esp8266/TlsClientInterface.cpp:865-910 | in every state of every run the next segment is refused however far the queue is drained first if and only if it exceeds nine tenths of the buffer size |
| TlsReceive.CloseCredits | devices/esp8266/TlsClientInterface.cpp:644-686 | in every run a close gives the whole window back if and only if the round under way has drained nothing; what it drained is never credited |
| TlsReceive.LostCredit | devices/esp8266/TlsClientInterface.cpp:644-686 | a run in which a byte stays uncredited |
| TlsReceive.TlsClient.Shut | devices/esp8266/TlsClientInterface.cpp:644-686 | closing credits the queue, drops it and gives the pcb up |
| TlsReceive.TlsClient.OnReceive | devices/esp8266/TlsClientInterface.cpp:865-910 | takes a segment exactly when it fits and there is memory; old and new queue together stay within the limit |
| TlsReceive.TlsClient.OnError | devices/esp8266/TlsClientInterface.cpp:912-920 | the pcb is forgotten, the queue is kept, the engine is marked |
| TlsReceive.TlsClient.ServiceRx | devices/esp8266/TlsClientInterface.cpp:930-994 | ends although data may arrive at every yield, credits exactly what the engine took, and empties the queue when the engine always has room |
| DnsLookup.AnswersNotMixedUp | devices/esp8266/TcpClientInterface.cpp:13-119 | in every run, after any timeouts, an address that a call uses answers the lookup of that very call |
| DnsLookup.UsedAsTold | devices/esp8266/TcpClientInterface.cpp:13-119 | in every run a call uses a cached address as it is; a call that waited goes on if and only if its own lookup was answered with an address, and with that one; every other call fails with its code |
| DnsLookup.OutcomeIs | devices/esp8266/TcpClientInterface.cpp:93-119 | an address lwIP has to ask for is used if and only if the first report about this lookup within the timeout has it |
| DnsLookup.StepKeeps | devices/esp8266/TlsClientInterface.cpp:481-513 | at most one lookup is outstanding and the flag is set exactly while one is |
| DnsLookup.Resolver.OnDnsFound | devices/esp8266/TlsClientInterface.cpp:1037-1047 | the record after an answer with and without an address, for both clients |
| DnsLookup.Resolver.Lookup | devices/esp8266/TcpClientInterface.cpp:80-119 | the result is what lwIP has at hand, or the first report for this lookup within the timeout; refused while an older one is outstanding; and the call plays like a run of the events |
| TlsSession.OneThreadInside | devices/esp32/TlsClientInterface.cpp:234-284 | in every interleaving at most one thread is inside a call on the context, on a context not freed or torn; the worker only before handshakeDone, read, write, available and close_notify only after it, close_notify only once the worker is gone |
| TlsSession.StepKeeps | devices/esp32/TlsClientInterface.cpp:469-503 | every access of every thread keeps the invariant of the session |
| TlsSession.DoneExactly | devices/esp32/TlsClientInterface.cpp:810-825 | in every run the handshake counts as done if and only if the worker's handshake call came to an agreement on the context that is still there, and the worker has had its next step |
| TlsSession.FatalExactly | devices/esp32/TlsClientInterface.cpp:810-825 | in every run a context is marked fatal only if the handshake broke, a call failed or an error was reported on it; and it is marked then, once no thread is about to do so |
| TlsSession.WorkerWrites | devices/esp32/TlsClientInterface.cpp:816-821 | the step after an agreed handshake sets handshakeDone, the step after a broken one engineFatal |
| TlsSession.WorkerTurn | devices/esp32/TlsClientInterface.cpp:810-825 | a turn of the worker that nobody interrupts calls the handshake if and only if it runs, has a context that is neither fatal nor done, a pcb and a connection |
| TlsSession.CallTurn | devices/esp32/TlsClientInterface.cpp:602-606 | a call that nobody interrupts goes into mbedTLS if and only if there is a context, not fatal, whose handshake is done |
| TlsSession.ReturnTurn | devices/esp32/TlsClientInterface.cpp:616-626 | what a call that comes back does to the flags: a failure marks the context, and a lost peer ends the connection |
| TlsSession.ErrorTurn | devices/esp32/TlsClientInterface.cpp:782-788 | an error report marks the context, and one that takes the pcb ends the connection |
| TlsSession.SetupFails | devices/esp32/TlsClientInterface.cpp:145-231 | a setup that fails, uninterrupted, leaves the session as it was |
| TlsSession.LaunchTurn | devices/esp32/TlsClientInterface.cpp:145-262 | a setup that works leaves a worker on a new context; without a task a server gives its context up and a client closes |
| TlsSession.NotifyTurn | devices/esp32/TlsClientInterface.cpp:469-503 | close notifies the peer if and only if there is a context, not fatal, whose handshake is done |
| TlsSession.ClosedIsFresh | devices/esp32/TlsClientInterface.cpp:469-503 | in every run, a close that gets through leaves a session as before its first start |
| TlsSession.PatientClose | devices/esp32/TlsClientInterface.cpp:269-284 | as long as no wait times out, no task is deleted and no context torn |
| TlsSession.ReachNotify | devices/esp32/TlsClientInterface.cpp:234-284 | a run through a whole session: handshake, call, and a close that notifies the peer with the worker gone |
| TlsSession.TornIsOnlyFreed | devices/esp32/TlsClientInterface.cpp:269-284 | a context whose worker was deleted inside a call is never entered again before it is freed |
| TlsSession.ClientMarksItsContext | devices/esp32/TlsClientInterface.cpp:782-788 | in no run of a client does a callback mark a freed context |
| TlsSession.WildMarkExactly | devices/esp32/TlsClientInterface.cpp:145-231 | in every run of a server a callback marks a freed context if and only if its failing setup frees the context after a callback has found it and before it marks it, or a callback looks at the pointer after the context was deleted and before the pointer is cleared |
| TlsSession.SetupFailsUnderCallback | devices/esp32/TlsClientInterface.cpp:145-231 | a run in which a failed setup frees the context under a callback |
| TlsSession.CallbackFindsFreed | src/utility/SafeAlloc.h:66-71 | a run in which a callback finds the pointer to a context that is already deleted |
| TlsSession.WrongDeleteExactly | devices/esp32/TlsClientInterface.cpp:234-284 | in every run stopTlsWorker deletes the caller or a task that has ended if and only if, after the application had given up waiting, the worker cleared its handle before the application took it or ended before the application deleted it |
| TlsSession.DeletesItself | devices/esp32/TlsClientInterface.cpp:234-284 | a run in which the application deletes itself |
| TlsPeek.StreamPreserved | devices/esp32/TlsClientInterface.cpp:602-660 | over every run of reads, available calls, faults and closes, what was read plus what was not is what was decrypted: nothing lost, repeated or reordered, and only a close frees bytes that were not read |
| TlsPeek.AvailableIsPending | devices/esp32/TlsClientInterface.cpp:629-660 | available says exactly how many decrypted bytes are pending |
| TlsPeek.ReadGivesPending | devices/esp32/TlsClientInterface.cpp:602-627 | a read gives what is pending first, up to its size |
| TlsPeek.PromiseKept | devices/esp32/TlsClientInterface.cpp:602-660 | after available said n > 0, a read gives at least min(size, n) if and only if there was no fault and no close in between |
| TlsPeek.EndsExactly | devices/esp32/TlsClientInterface.cpp:602-660 | over every run a live session is dead if and only if there was a fault, a close or a call that got a code other than 0, WANT_READ, WANT_WRITE and PEER_CLOSE_NOTIFY; and it counts as connected if and only if none of these came, nor the peer's farewell |
| TlsPeek.ReadMarks | devices/esp32/TlsClientInterface.cpp:616-626 | exactly which codes make a read mark the session fatal or the peer gone |
| TlsPeek.AvailableMarks | devices/esp32/TlsClientInterface.cpp:640-658 | the same for available |
| TlsPeek.TlsClient.ReadBytes | devices/esp32/TlsClientInterface.cpp:602-627 | the buffer after a read, byte for byte, and the session's new state |
| TlsPeek.TlsClient.BytesAvailable | devices/esp32/TlsClientInterface.cpp:629-660 | the count and the session's new state, with the kept byte |
| CertChain.Count | devices/esp8266/BearSSLCertLoader.cpp:116-134 | the first pass counts the completed, non-empty certificates and their bytes |
| CertChain.Fill | devices/esp8266/BearSSLCertLoader.cpp:152-171 | over any beginning of the same events every write is inside the measured blocks, and a complete pass fills both exactly |
| CertChain.Ahead | devices/esp8266/BearSSLCertLoader.cpp:152-171 | a certificate being read is a beginning of the next completed one, if one more is completed at all |
| CertChain.CertificatesAre | devices/esp8266/BearSSLCertLoader.cpp:36-53 | the certificates of a file are, in order, the put-together contents of exactly those of its whole objects in whose name CERTIFICATE occurs and that are not empty |
| CertChain.EveryFile | devices/esp8266/BearSSLCertLoader.cpp:59-97 | every well-formed sequence of decoder events is that of such a file, perhaps with its last object cut off |
| CertChain.LoadCertChain | devices/esp8266/BearSSLCertLoader.cpp:104-183 | succeeds exactly when both passes complete, there is a certificate and both blocks are granted; the entries then cut the block into the certificates, in order, without a gap, and these are the contents of the file's certificate objects |
| CertChain.EntryIsCertificate | devices/esp8266/BearSSLCertLoader.cpp:162-169 | the bytes an entry points to are its certificate |
| CertChain.GuardNeeded | devices/esp8266/BearSSLCertLoader.cpp:155-160 | without the capacity test the second pass would leave its block if and only if the file ends inside a certificate that has data |
| TrustAnchors.DnCapture.NewCap | devices/esp8266/BearSSLCertLoader.cpp:206-207 | the doubled capacity is enough and less than twice what is needed, unless it is the first choice |
| TrustAnchors.DnCapture.Push | devices/esp8266/BearSSLCertLoader.cpp:202-215 | the buffer is the pieces put together until memory runs out, and then stays as it was |
| TrustAnchors.FreeContents | devices/esp8266/BearSSLCertLoader.cpp:217-227 | frees each block an anchor reaches, once |
| TrustAnchors.ToAnchor | devices/esp8266/BearSSLCertLoader.cpp:229-272 | on failure the heap as it was; on success exactly the blocks the anchor reaches, with the certificate's name and key; never a resize to zero; with memory it fails exactly for keys that are not supported |
| TrustAnchors.AllocateChain | devices/esp8266/BearSSLCertLoader.cpp:138-182 | two blocks, or the heap as it was |
| TrustAnchors.FreeCertChain | devices/esp8266/BearSSLCertLoader.cpp:185-191 | exactly the chain's two blocks go |
| TrustAnchors.LoadTrustAnchors | devices/esp8266/BearSSLCertLoader.cpp:276-308 | with allocations failing anywhere, failure leaves the heap as it was and success adds exactly what the result reaches, each block reached once |
| TrustAnchors.FreeTrustAnchors | devices/esp8266/BearSSLCertLoader.cpp:310-317 | brings back the heap from before the load, with no double free |
| TrustAnchors.LoadAndFree | devices/esp8266/BearSSLCertLoader.cpp:276-317 | loading and freeing leaves the heap as it was, whatever failed |
| SubjectAltName.IpRoundTrip | devices/esp32/TlsCertProvisioner.cpp:53-56 | four bytes are an address's encoding if and only if their value is the address |
| SubjectAltName.EncodeSanExtension | devices/esp32/TlsCertProvisioner.cpp:71-105 | writes the DER of the names at the front of the buffer and nothing else, or nothing exactly when there is no name, more than 127 bytes of names, or too small a buffer |
| SubjectAltName.NamesRoundTrip | devices/esp32/TlsCertProvisioner.cpp:71-105 | any list of short names decodes to itself |
| SubjectAltName.ExtensionLayout | devices/esp32/TlsCertProvisioner.cpp:71-105 | the bytes of the extension, tag by tag as in section 4.2.1.6 of RFC 5280, the address with its lowest byte first |
| SubjectAltName.SanMatches | devices/esp32/TlsCertProvisioner.cpp:33-69 | true exactly when each part asked for occurs among the names |
| SubjectAltName.TagsAre | devices/esp32/TlsCertProvisioner.cpp:47-50 | the tags that count as an address and as a DNS name |
| SubjectAltName.SanRoundTrip | devices/esp32/TlsCertProvisioner.cpp:33-105 | an encoded identity decodes, and matches a wanted one if and only if each part asked for is the encoded one |
| SubjectAltName.GeneratedIsCurrent | devices/esp32/TlsCertProvisioner.cpp:267-295 | a certificate written whole is current for exactly the identities its own includes |
| SubjectAltName.EnsuredStays | devices/esp32/TlsCertProvisioner.cpp:267-295 | once ensured, the same identity keeps its certificate, whatever a generation would do, if and only if nothing was generated or the certificate was written whole or what a short write left answers for the identity |
| SubjectAltName.EnsuredAnswers | devices/esp32/TlsCertProvisioner.cpp:267-295 | a success means a key and a certificate that answers for each part of the identity, unless it was just written and not whole |
| SubjectAltName.GeneratedSucceeds | devices/esp32/TlsCertProvisioner.cpp:246-265 | a generation succeeds exactly when the names fit and both files are written, and what it did not get to stays |
| SubjectAltName.ShortWriteForgotten | devices/esp32/TlsCertProvisioner.cpp:246-252 | a short write counts as success, and the next call has to generate again |
| SubjectAltName.TooLong | devices/esp32/TlsCertProvisioner.cpp:267-295 | an identity above 127 bytes of names is only met by a certificate that is there already |
| SubjectAltName.Provisioner.GenerateCert | devices/esp32/TlsCertProvisioner.cpp:122-265 | what the files hold after a generation that succeeds, fails at any stage, or counts a short write as success |
| SubjectAltName.Provisioner.EnsureServerCert | devices/esp32/TlsCertProvisioner.cpp:267-295 | the reuse decision, and the files and result after it |

## Left out

- The pattern branch of readLineInFile: it mixes occurrence counts with window-relative line numbers.
- The rest of the littlefs wrapper: rename, attributes and listing hand over to littlefs one call each, and copy looks at no status, so that it promises nothing once a read or a write fails.
- littlefs, lwIP, BearSSL and mbedTLS internals: they appear as parameters and small abstract operations.
- The task scheduler, VFS dispatcher, database engine, SSH and shell: not part of this model.
- The outbound side of the TCP and TLS clients: writes, the esp8266 engine pump and acknowledgements.
- The esp32 copies of the TCP client and server and the TLS server: the same state machines again.
- The esp32 receive queue (onReceive, bioRecv) and its byte-level races during close.
- Keys, serial numbers, validity and signatures in generateCert: only the extension and the files.
- PEM and X.509 decoding: the events and the decoded certificate are inputs; certificate counts and sizes do not wrap at the width of size_t.
- The listening pcb: `begin` reduces it to whether it came up, so the bound pcb that is lost when `tcp_listen` fails is not seen.
- Null pointer arguments, except the missing search string.
- FileReader.ReadFile: reads that go on for ever are excluded, by the exact condition of FileReader.ScanEndsExactly on the first chunk.
- TcpNetwork.Network.CloseTls: the credit that close gives for its queue before (lines 655-671) is in TlsReceive.TlsClient.Shut only.
- Directories.Tree.DeleteDirectory: for a directory path of 256 bytes and more, whose child paths all are its first 255 bytes, only that nothing is added or changed and that success clears the directory; the stack is a number of nested calls.
- TlsSession.OneThreadInside: the steps are values and not methods of a class, because threads interleave between them; the lock that lwIP callbacks hold is the only one modelled, and a worker deleted while holding it is not; what an application task leaves behind when it deletes itself is not followed.
- TlsPeek.PromiseKept: the length mbedTLS reports is not bounded by the 32-bit result.
- TrustAnchors.LoadTrustAnchors: the chain's contents come from CertChain as decoded certificates; only its blocks are on the heap.
