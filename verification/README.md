# diald-top: verified model

diald-top shows the packet queue of diald. Its server reads the monitor FIFO of diald and farms
it out to TCP clients, and lets those clients write to the control FIFO whom a configuration file
grants that right. Its client draws the queue and resolves addresses through a cache.

This project models the parts of both programs where state matters, in Dafny, and proves what
they keep and what they compute. `dafny verify dfyconfig.toml` checks everything.

## How it is laid out

| file | models |
|---|---|
| Common.dfy | C strings, letter case, IPv4 addresses and masks |
| Authenticate.dfy | the access list `aq` |
| Conffile.dfy | the configuration file: scanner, grammar, `inet_pton`, and the printed form |
| Ident.dfy | the user id in an ident reply, on the line buffer |
| Selection.dfy | `thread_fds_t`, `mux_fds`, `demux_fds`, `adjust_maxfd` |
| ServerModel.dfy | the server as a state machine; what the operating system answers is an input, every outside effect an event |
| ServerInvariant.dfy | the invariant of the server, kept by every step of every run |
| PortWalks.dfy | what a call of `port_server` does: the list it leaves and its exact events |
| Deliveries.dfy | a fan-out round reduced to descriptors and failing writes; who is served twice |
| FanOuts.dfy | what a fan-out round delivers, and a whole call of `fifo_server` without failures |
| Rounds.dfy | the exact events of a round and of a whole call under any failures, and who is left |
| ServerRuns.dfy | whole runs: who reaches the control FIFO, when the pipe closes |
| Passes.dfy | a whole pass of the main loop: the list it leaves and every event for a client |
| Connections.dfy | from file and ident reply to rights: new connections, reloads, denials |
| PortList.dfy | the linked list `pq` |
| Server.dfy | the server program on linked list, records and counters, proved to follow ServerModel |
| ResolveModel.dfy | the reverse-DNS cache as a finite map, against the history of a run |
| Resolve.dfy | the chained hash table and `resolve`, proved to follow ResolveModel |
| Semaphores.dfy | the semaphore as interleaved steps of any number of threads |
| PacketRows.dfy | row format, screen geometry and the row buffers |
| Commands.dfy | `strstrip` and `validate_command` |

## What the code does not do

The program departs from its evident intent in a few places. The model keeps them, and says
exactly when the intended property holds.

- `fifo_server` never updates `prev`, so a failed write restarts the round at the head while `i` has
  grown. Every surviving monitor gets the chunk if and only if none of the writes before the last
  monitor's fails (`FanOutReachesAllIff`). Somebody gets it twice if and only if a successful write of
  the round comes right behind r failed ones that come right behind r successful ones, for some r
  (`SomebodyServedTwiceIff`); the first monitor does if and only if the first failing write is neither
  the first nor one of the last two and the next one succeeds (`FirstMonitorServedTwiceIff`).
- `demux_fds` never sets `count`. The dispatch is exact if and only if it happens to start at zero or
  below (`DispatchExact`); a failed `select` dispatches nothing if and only if it starts at -1 or
  above (`DispatchNothingOnError`). The server invariant holds for every value of it.
- `SemaphoreTake` tests with `if`. One more taker is harmless if and only if the value is zero or
  exceeds the number of signalled threads (`AdmissionIsExact`); otherwise the value goes negative
  (`BargingGoesNegative`).
- The transmit gate of `resolve` adds the last receive load instead of the last transmit load. With the
  link up and the receive loads low, a lookup goes out over a loaded line if and only if what the two
  earlier transmit loads leave of the limit is above the last receive load but not above the last
  transmit load, and one is held back if and only if it is the other way round (`GateGoesWrong`,
  `GateAgreesIff`). One heavy transmit load right after the link came up is enough (`OverloadIsIgnored`).
- `format` survives a resize. A row is complete exactly when `RowAfterResize` says so.
- A port without ident has a null user id. Checking it again on a reload compares that pointer, and
  so ends the process, if and only if the new configuration has an entry (`SearchMeaning`,
  `ReloadEndsProcessIff`).
- A comment at the end of the file without a newline is no comment: its sign is skipped and its text
  scanned (`OpenCommentIsNoComment`). The file is then read as the lines before it if and only if there
  is such a line and the comment holds no user id and no address; otherwise it is a syntax error
  (`OpenCommentIff`). A file without a single line is one too (`ConfRoundTrip`).
- The titles of the packet list stand over their fields if and only if the screen has at least 58
  columns (`ScreenAligns`).
- The help screen offers "delay-quit", which the command table refuses (`HelpTextCommandIsRejected`).

## Model

| member | source | states |
|---|---|---|
| `Common.CaseMeaning` | server/authenticate.c:80 | two strings compare equal ignoring case iff they have the same characters but for capital and small forms of the 26 letters |
| `Common.PrefixMeaning` | server/port-queue.c:175-191 | the same for the beginning of a line |
| `Common.MaskedEqual` | server/authenticate.c:84-85 | masking two addresses gives the same word exactly when they agree on every bit of the mask |
| `Authenticate.CheckMeaning` | server/authenticate.c:69-102 | yes exactly when the user id is a spelling of some configured line's, in capitals or not, and the address agrees with it on every netmask bit |
| `Authenticate.CheckIgnoresOrder` | server/authenticate.c:50-102 | order and duplicates of the configured lines never matter |
| `Authenticate.CheckMonotone` | server/authenticate.c:50-102 | adding lines never turns a yes into a no |
| `Authenticate.AccessList.AuthAdd` | server/authenticate.c:50-67 | the masked entry goes in front of the list |
| `Authenticate.SearchMeaning` | server/authenticate.c:69-102 | the search grants exactly what the list grants, and compares a null pointer iff there is no user id and the list has an entry |
| `Authenticate.AccessList.AuthCheck` | server/authenticate.c:69-102 | the loop answers the search, the null dereference included |
| `Authenticate.AccessList.Clear` | server/authenticate.c:123-131 | the teardown empties the list |
| `Authenticate.AccessList.AddAll` | server/conffile.y:46-57 | the actions of one parse leave the list of exactly those entries |
| `Conffile.LexLine` | server/conffile.l:20-32 | a printed line, whatever its blanks and comment, is scanned into exactly its tokens |
| `Conffile.UserIdCharacters` | server/conffile.l:20 | what a user id may consist of: letters, digits but in front, and the six characters the range lets in |
| `Conffile.LexAddressText` | server/conffile.l:21 | four groups of one to three digits are one address token, also with a digit too many behind them |
| `Conffile.DottedRoundTrip` | server/conffile.y:30-42 | reading a printed address gives the address back |
| `Conffile.DottedOnly` | server/conffile.y:30-42 | no other text is read as that address |
| `Conffile.OddAddress` | server/conffile.y:30-57 | digit groups that are no address leave the entry with whatever the variable held |
| `Conffile.ConfRoundTrip` | server/conffile.y:46-60 | any entries in any layout are read back as those entries in order; only the file without a line fails |
| `Conffile.EmptyUserNeverGranted` | server/conffile.l:20 | under every accepted file the empty user id is refused everywhere |
| `Conffile.LexOpenLine` | server/conffile.l:20-32 | a text without newline never gives a newline token, and gives no token iff no user id or address starts anywhere in it |
| `Conffile.UnterminatedLine` | server/conffile.y:44-60 | lines followed by any text without newline: read as those lines iff there is one and the text has no word, else a syntax error |
| `Conffile.OpenCommentIsNoComment` | server/conffile.l:23 | without a newline behind it, a comment sign changes nothing: the text is scanned as if it stood alone |
| `Conffile.OpenCommentIff` | server/conffile.l:23 | a last comment without newline is harmless iff a line precedes it and it has no word; with the newline it always is |
| `Conffile.OneWordIsTooMany` | server/conffile.l:23 | one small letter anywhere in a last comment without newline makes the file a syntax error |
| `Ident.SkipField` | server/port-daemon.c:162-172 | one scan advances the text past its first colon |
| `Ident.CleanUserid` | server/port-daemon.c:183-196 | one NUL is written, at the line end, and the result points to the line without leading spaces |
| `Ident.ReapUserid` | server/port-daemon.c:157-181 | the result is the text behind the third colon, cut and stripped |
| `Ident.ReadUserid` | server/port-daemon.c:132-134 | cleaning and then reaping the buffer gives the id of its first line |
| `Ident.IdentRoundTrip` | server/port-daemon.c:157-196 | a USERID reply gives back exactly its user id, inner colons included, whichever of CR, LF and NUL ends it |
| `Ident.ShortReplyIsEmpty` | server/port-daemon.c:157-196 | a line with fewer than three colons gives the empty id |
| `Selection.AdjustMaxfd` | server/selection.c:42-59 | the upward scan finds the highest remaining descriptor |
| `Selection.AdjustedIsMax` | server/selection.c:42-59 | recomputing only when the maximum was cleared keeps a true maximum |
| `Selection.MuxFds` | server/selection.c:61-97 | the muxed record is the union, its count the sum, its maximum true |
| `Selection.DemuxFds` | server/selection.c:99-134 | for any initial count, the lowest ready descriptors are handed to their owners |
| `Selection.DoSelect` | server/selection.c:33-40 | the whole round, for every answer of select |
| `Selection.DispatchExact` | server/selection.c:114-133 | exactly the ready descriptors are dispatched iff count starts at most at 0 |
| `Selection.DispatchNothingOnError` | server/selection.c:114-133 | after a failed select nothing is dispatched iff count starts at least at -1 |
| `Selection.SelectRound` | server/selection.c:33-134 | from 0, each share is its record's ready descriptors, the three add up to the answer, -1 dispatches nothing |
| `PortList.PortQueue.Push` | server/port-queue.c:49-51 | the node goes in front of the list |
| `PortList.PortQueue.Find` | server/port-queue.c:85-88 | the first node that compares equal, and its predecessor |
| `PortList.PortQueue.Unlink` | server/port-queue.c:90-97 | exactly that node leaves the list |
| `Server.Server.constructor` | server/diald-top-server.c:53-57 | the initial state, which satisfies the invariant |
| `Server.Server.PortEnqueue` | server/port-queue.c:39-60 | list, count, set and maximum follow the state machine |
| `Server.Server.ClosePort` | server/port-queue.c:62-111 | the port leaves list, count and set as the state machine says |
| `Server.Server.ParseIncoming` | server/port-queue.c:170-205 | every command line changes the state as the state machine says |
| `Server.Server.VisitPort` | server/port-queue.c:145-167 | one turn keeps `prev` the predecessor of `curr`, also when the port was closed |
| `Server.Server.PortServer` | server/port-queue.c:129-168 | the pointer walk computes the walk of the state machine and keeps the invariant |
| `Server.Server.MonitorOpen` | server/fifo-server.c:66-92 | pipe, record and control line, or nothing when open fails |
| `Server.Server.MonitorClose` | server/fifo-server.c:94-110 | pipe and record are reset |
| `Server.Server.FanOutChunk` | server/fifo-server.c:132-143 | the inner loop ends for every pattern of failures and computes the round of the state machine |
| `Server.Server.FifoServer` | server/fifo-server.c:112-145 | idle pipes are closed, others pumped until dry |
| `Server.Server.PortDaemon` | server/port-daemon.c:80-155 | the new port is listed with the rights the access list gives it |
| `Server.Server.ReauthenticateUsers` | server/authenticate.c:143-169 | every port's rights are rewritten in place, in list order, up to the first null user id that is compared |
| `Server.Server.RereadConf` | server/authenticate.c:115-141 | the process survives a reload iff the new list is empty or no port lacks a user id; the reload is then one step of the state machine and keeps the invariant |
| `Server.Server.PassOnce` | server/diald-top-server.c:61-69 | a pass of the main loop is one step of the state machine and keeps the invariant |
| `ServerInvariant.ClosePortAt` | server/port-queue.c:62-111 | closing a listed port removes exactly it and keeps counts, set, maximum and monitorcount right |
| `ServerInvariant.ParseIncomingInv` | server/port-queue.c:170-205 | every client line keeps the invariant and writes to the control FIFO only by right |
| `ServerInvariant.FanOutInv` | server/fifo-server.c:132-143 | every pattern of failing writes ends, and every close on the way keeps the invariant |
| `ServerInvariant.ReloadSurvivesIff` | server/authenticate.c:157-168 | the loop over the ports dereferences null iff the list has an entry and some port no user id; otherwise it ends with all rights renewed |
| `ServerInvariant.ReloadEndsProcessIff` | server/authenticate.c:115-169 | the same in terms of the file: it has an entry, and a port without ident is listed |
| `ServerInvariant.ReauthenticateAll` | server/authenticate.c:157-168 | each port gets its new rights, each is told once in order, nothing else changes |
| `ServerInvariant.NextInv` | server/diald-top-server.c:61-69 | one pass or reload keeps the whole invariant |
| `ServerInvariant.EveryReachableState` | server/port-queue.c:39-111 | in every reachable state counts, sets, maxima, monitorcount, pipe record and write flags are right |
| `ServerInvariant.PipeOpenWhileMonitored` | server/fifo-server.c:66-92 | in runs where open never fails, the pipe is open whenever somebody monitors |
| `ServerInvariant.UnidentifiedIsReadOnly` | server/port-daemon.c:120-146 | without ident or with an ERROR reply, no configuration file gives write access |
| `PortWalks.ClassifyMeaning` | server/port-queue.c:175-191 | the four comparisons in their order tell, by the text alone, what a line asks for |
| `PortWalks.ServedLine` | server/port-queue.c:145-205 | what each of the five kinds of text read from a port does to the list and which events it causes |
| `PortWalks.StartOpensPipe` | server/fifo-server.c:66-92 | the first monitor opens the pipe and names it to diald; an open pipe is left alone, a failed open given up |
| `PortWalks.WalkEffect` | server/port-queue.c:141-167 | from any position: every ready port is read once in order and gets exactly the answer to its line, stays in place or is gone; others are untouched |
| `PortWalks.PortServerServesReady` | server/port-queue.c:129-205 | the exact list and client events of the call in any pass, each granted line forwarded once; selcount counts the ready ports, so the early stop skips nobody |
| `FanOuts.FanOutClean` | server/fifo-server.c:132-143 | without failure each monitor gets the chunk once, in list order, nobody else does |
| `FanOuts.FifoServerClean` | server/fifo-server.c:112-145 | without failures a whole call sends each chunk, up to the first empty one, once to each monitor in order and changes nothing else |
| `FanOuts.LateFailureReachesAll` | server/fifo-server.c:132-143 | the exact events of a round in which at most the last monitor's write fails |
| `FanOuts.EarlyFailureMissesOne` | server/fifo-server.c:133-143 | any earlier failure makes a surviving monitor miss the chunk |
| `FanOuts.FanOutReachesAllIff` | server/fifo-server.c:132-143 | all survivors get the chunk iff no write before the last monitor's fails |
| `FanOuts.FanOutDelivers` | server/fifo-server.c:132-143 | from any position and count, the loop over the list sends what a loop over the monitors' descriptors alone delivers |
| `Rounds.RoundWrites` | server/fifo-server.c:132-143 | the successful writes of a round are its deliveries |
| `Rounds.FanOutRound` | server/fifo-server.c:132-143 | exact events and list of a round under any failures, from any position and count |
| `Rounds.FifoServerRounds` | server/fifo-server.c:112-145 | exact events and list of a whole call: each round runs over the monitors the one before has left |
| `FanOuts.FirstMonitorServedTwiceIff` | server/fifo-server.c:136-142 | the first monitor gets the chunk twice iff the first failing write is neither the first nor one of the last two and the next succeeds |
| `FanOuts.SomebodyServedTwiceIff` | server/fifo-server.c:136-142 | somebody gets the chunk twice iff some successful write of the round follows r failures that follow r successes |
| `ServerRuns.ControlFifoIsGuarded` | server/port-queue.c:197-198 | over whole runs, a client's line on the control FIFO is what a port listed and ready in that pass sent, and the list in force grants that port's user and address |
| `ServerRuns.IdlePipeCloses` | server/fifo-server.c:121-124 | in any pass, a ready pipe nobody monitors is closed and no client written to |
| `Passes.PassEffect` | server/diald-top-server.c:61-69 | for every pass, the list it leaves and all its client events in order: greeting, answers, then the pipe's turn |
| `Passes.PassFansOut` | server/diald-top-server.c:67-68 | without failures a ready pipe sends each chunk once to each monitor; a pipe that is not ready gets no turn |
| `Connections.FileGrants` | server/authenticate.c:50-113 | the rights under a file are its entries, whatever its layout |
| `Connections.ListInForce` | server/authenticate.c:104-141 | in every run the access list is that of the file read last |
| `Connections.UserConnects` | server/port-daemon.c:80-155 | from file and reply text: the new port heads the list with its id, may write iff an entry grants it, and is greeted accordingly |
| `Connections.StrangerConnects` | server/port-daemon.c:119-125 | without ident: no id, read and monitor only, and told so |
| `Connections.ReloadRenews` | server/authenticate.c:115-169 | from file text: every port gets and is told its new right, once, in order; nothing else changes |
| `Connections.DenialQuotesLine` | server/port-queue.c:199-202 | the denial quotes the line without leading blanks and line end |
| `ResolveModel.HashSpreads` | client/resolve.c:118-124 | no two of the 65536 addresses of a network share a bucket |
| `ResolveModel.AlwaysFaithful` | client/resolve.c:63-110 | in every run the table has exactly the addresses with a definite answer, and shows name, abbreviation and age of the latest, or the address itself when it has no name |
| `ResolveModel.LoadsAreTheLastReports` | client/parser.c:56-69 | the load arrays are the last three reports of the run |
| `ResolveModel.CachedNameIsLatest` | client/resolve.c:63-110 | what a request without lookup shows is what the latest answered lookup of the log promised, overdue only if the gate was shut |
| `ResolveModel.FreshNameIsShown` | client/resolve.c:66-102 | a lookup happens only through an open gate, is shown, and leaves other addresses alone |
| `ResolveModel.LeftAsItIs` | client/resolve.c:54-61 | a text that is no address, and any text in numeric mode, is shown as it is |
| `ResolveModel.SettingsByHistory` | client/resolve.c:61-110 | clock and switches are what the run made of them |
| `ResolveModel.LogGrows` | client/resolve.c:66-73 | exactly the requests that are wanted, with the gate open, add a lookup |
| `ResolveModel.LooksUpIff` | client/resolve.c:63-69 | in every run an address is looked up iff its latest definite answer is missing or overdue and the gate is open |
| `ResolveModel.GateGoesWrong` | client/resolve.c:67-69 | exactly when a lookup goes out over a loaded line, and exactly when one is held back from a free line |
| `ResolveModel.GateAgreesIff` | client/resolve.c:67-69 | exactly when the gate as coded is the gate over both directions' last three loads |
| `ResolveModel.OverloadIsIgnored` | client/resolve.c:67-69 | after any transmit load at or above the limit, reported once the link is up, the next address is looked up |
| `Resolve.HostTable.FindRecord` | client/resolve.c:129-137 | the walk finds the one record of the address, or none |
| `Resolve.HostTable.Probetab` | client/resolve.c:145-157 | membership in the map |
| `Resolve.HostTable.Gettab` | client/resolve.c:126-143 | the known record, or a new one at the head whose address is still unset |
| `Resolve.HostTable.Fill` | client/resolve.c:95-98 | filling the unset record restores the table, one address added to the map |
| `Resolve.Resolver.DoLoad` | client/parser.c:56-69 | the three slots shift |
| `Resolve.Resolver.ResolveName` | client/resolve.c:47-115 | result and table follow the map model |
| `Semaphores.Conservation` | client-lib/semaphores.c:82-121 | value is its start plus gives minus completed takes, in every run |
| `Semaphores.NoLostWakeup` | client-lib/semaphores.c:82-121 | with the mutex free and a waiter unsignalled, value is at most the signalled threads, for any threads and interleaving |
| `Semaphores.HolderGetsOut` | client-lib/semaphores.c:82-121 | in every state the holder of the mutex has a step, each brings it nearer to releasing it, and no other thread gets in |
| `Semaphores.Undisturbed` | client-lib/semaphores.c:82-121 | what a whole take and a whole give do on their own, at zero, below zero and with waiters |
| `Semaphores.HandoffIsSafe` | client-lib/semaphores.c:82-121 | with handoff and no spurious wakeups value stays at 0 or above and unmatched takes at n or below |
| `Semaphores.AdmissionIsExact` | client-lib/semaphores.c:85-91 | when one more taker is harmless for all proper continuations, and when not |
| `Semaphores.BargingGoesNegative` | client-lib/semaphores.c:85-91 | every state with all units reserved has a run to a negative value |
| `Semaphores.ThreeThreadsReachMinusOne` | client-lib/semaphores.c:85-111 | a three-thread run that ends at -1 |
| `PacketRows.LineLength` | client/pipe.c:249-251 | the length of a packet line |
| `PacketRows.PaddedText` | client/pipe.c:249-251 | a field shows its text aligned and padded with blanks, or cut |
| `PacketRows.FieldColumns` | client/pipe.c:249-251 | the columns of all six fields in any line, separators included |
| `PacketRows.RowsAlignWithHeader` | client/screen.c:248-252 | the titles stand over those columns iff the address fields have at least 11 characters |
| `PacketRows.ScreenAligns` | client/screen.c:248-252 | on the screen: iff it has at least 58 columns |
| `PacketRows.LineFits` | client/screen.c:248 | for 36 to 513 columns a line is 35+2*ip_width, at most COLS-1, and fits its buffer |
| `PacketRows.StoredRowIsComplete` | client/parser.c:178 | the copy terminates the row and shows the whole line iff the line is shorter than the row, and clears the rest |
| `PacketRows.RowAfterResize` | client/pipe.c:249-251 | after a resize rows are complete iff the screen did not shrink, but for one odd column |
| `PacketRows.Screen.constructor` | client/screen.c:225-230 | min(LINES+1, MAXBUFS) empty rows |
| `PacketRows.Screen.DoQueue` | client/parser.c:143-158 | count is 0 and every row empty |
| `PacketRows.Screen.DoPacket` | client/parser.c:160-185 | the packet goes to row count if the screen has it, and is counted |
| `PacketRows.Screen.ReceiveFrame` | client/parser.c:143-185 | after n packets count is n, the first LINES-8 are in the rows in order, cut to the row where they are too long, the rest is empty |
| `PacketRows.Screen.FramesAreSafe` | client/parser.c:168-180 | up to 264 lines and 36 to 513 columns no frame leaves its arrays and every row shows its whole line |
| `PacketRows.Screen.Redisplay` | client/pipe.c:285-292 | the rows up to count are printed in order |
| `Commands.Strstrip` | client/pipe.c:118-129 | the buffer holds its first word |
| `Commands.ValidateCommand` | client/pipe.c:79-95 | the buffer holds the first entry its word starts with, or nothing |
| `Commands.ValidateMeaning` | client/pipe.c:79-95 | an entry is the answer iff the word begins with a spelling of it, in capitals or not |
| `Commands.ValidateIgnoresOrder` | client/pipe.c:54-66 | the order of the table does not matter |
| `Commands.ValidateIsIdempotent` | client/pipe.c:79-95 | the answer is empty or an entry, and its own answer |
| `Commands.EverySpellingIsAccepted` | client/pipe.c:54-95 | any spelling of an entry, followed by white space and anything, is that entry |
| `Commands.HelpTextCommandIsRejected` | client/screen.c:184 | the offered "delay-quit" is refused |

## Left out

- Sockets, FIFO creation, syslog, process detaching and DNS lookups appear only as inputs and events.
- `accept` is taken to succeed with a descriptor not in use, `write` to take everything or fail with EPIPE, descriptors to fit an fd_set.
- Buffer sizes of the server (257, 1002 and 1024 characters) and failing allocations are not modelled; strings are as long as they are.
- Freed memory is not modelled, nor the read of a freed node in `close_port`; nodes are only unlinked.
- SIGHUP is a step between two passes, never in the middle of a function. Runs of the state machine go on after a reload that ends the process, as if a null user id matched nothing; `Reloaded` says where it ends.
- An address with leading zeros or octets above 255 keeps whatever the variable held; one value stands for all such addresses of a file.
- `HostTable` leaves out memory release of replaced names; `Resolver` takes the abbreviation that `truncate_hostname` makes as an input.
- Sums of loads are unbounded integers.
- The monitor grammar of the client (client/monitor.l, client/monitor.y), ncurses drawing, keyboard handling and help screens.
- client-lib/thread.c, client-lib/shared_memory.c and the System V branch of the semaphore.
- `service` and `truncate_hostname`: environment lookups that would add only easy members.
- Server.Server.PortDaemon: a failing `accept`, after which the source goes on with descriptor -1 and sets a bit outside the fd_set.
- Server.Server.PassOnce: the same; a pass that dispatches the listener needs an accepted connection.
- PacketRows.Screen.ReceiveFrame: needs a format width of zero or more (35 columns) and lines and rows within their arrays; beyond, the source writes past them.
