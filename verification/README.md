# Verification of the proxy, its TCP/IP API and its applications

A Dafny model of the parts of ocproxy and of the lwIP code it carries where control is spread
over threads, callbacks and retries, with proofs of what they keep over every run. Verify it with
`dafny verify dfyconfig.toml`.

| file | models | main results |
|---|---|---|
| `Mailbox.dfy` | mailboxes of the UNIX port, step by step, any number of threads | refines a bounded FIFO; with one blocking fetcher no thread is left asleep |
| `MailboxSleepers.dfy` | which threads may share a mailbox | no fetcher sleeps beside a message, and no poster beside room, exactly when at most one thread uses the blocking call or there are at most two threads |
| `RecursiveLock.dfy` | `sys_arch_protect` with its unlocked ownership test | mutual exclusion in every interleaving, exactly when no thread has the id 0xDEAD |
| `Select.dfy` | `lwip_select` against `event_callback` | no missed wake-up; a call returns exactly what was pending when it looked; the walk that drops the lock only touches linked entries; the list and the counters stay right |
| `AcceptEvents.dfy` | `event_callback` against `lwip_accept` | receive events are conserved, exactly when none was taken back before the socket was installed |
| `RecvStream.dfy` | `lwip_recvfrom` on a TCP socket | every call of every sequence returns the bytes where the calls before it had come to; the window opens by what was returned |
| `Netconn.dfy` | write, close, connect, delete and error paths of a TCP netconn | no assertion fails in any run; a blocking write is exact and ends; a caller is woken exactly when its request is over; the two ways out are characterised, and reached |
| `SsiSpec.dfy`, `Ssi.dfy` | the server-side-include sender of the HTTP server | resumable sending refines a one-shot transducer; complete at the end exactly when the file does not end in a tag with an insert |
| `Base64.dfy` | the bit-by-bit base64 encoder of the SMTP client | the encoding of section 4 of RFC 4648, exactly when the length is no multiple of three |
| `MailText.dfy` | checking and framing of a mail | the end of mail data is unique exactly when the body is not a single dot |
| `SmtpScript.dfy`, `Smtp.dfy` | the SMTP client session | at every moment of every run what was written is the script as far as the replies received allow; one result; success only after everything was written |
| `SlotPool.dfy`, `ProxySteps.dfy`, `Proxy.dfy` | the proxy's pool of slots and the callbacks that use it | in every run no free slot is referenced by libevent, lwIP or the resolver, exactly unless a success reply is cut short; a slot is never freed again exactly if its name could not be resolved |
| `Relay.dfy` | the relay from the VPN to a local socket | each byte once and in order, however writes are cut short; the exact condition under which the skip loop resumes |
| `Socks.dfy` | the incremental SOCKS5 parser | the outcome does not depend on how the bytes are split into reads, except the port of a name, for which the exact condition is given |
| `Basics.dfy` | what several files share | |

## How it is modelled

Code that runs in several threads (`Mailbox`, `RecursiveLock`, `Select`, `AcceptEvents`) is a
state machine: a state value, the steps that are enabled in it, and runs as sequences of states.
A step is one atomic piece of the source: a semaphore operation, a region under
`SYS_ARCH_PROTECT`, or a single access to shared memory outside of one.

Callbacks of one thread that update fields are classes with those fields. Their methods are
proved against functions of the old state, or against an invariant on a value made of the fields,
about which the lemmas speak. What the outside answers (`read`, `write`, `tcp_write`, `tcp_close`,
the send buffer, the resolver, arriving data) is left arbitrary, either as an argument or as a
nondeterministic choice inside a small class for the connection. Where a class says that a
connection is willing, it accepts every write, though perhaps only a byte at a time; this is used
only to state progress.

Premises, by file:

- `Mailbox`: signalling and waiting on a semaphore are atomic; the ring indices do not wrap.
- `Select`: no socket is closed while it is being selected on; a socket is ready when one of its
  three event fields says so, not because data is left in `lastdata`; counters do not wrap.
- `Netconn`: the build with `LWIP_TCPIP_CORE_LOCKING`, without send timeouts, with one API call at
  a time per netconn; for the invariant, no hard error from `tcp_write` after part of a blocking
  write was accepted, and no write that leaves a stray token. Both are shown to be exact, and runs
  that break them to fail.
- `Ssi`: tags are kept in the output, the whole file is one block, no multipart inserts.
- `Smtp`: the AUTH mechanisms PLAIN and LOGIN are both compiled in, and the checks of the mail are.
  A reply that comes in pieces has its code in the first; one that has not is shown to be lost.
- `Proxy`: a pcb closed before the handshake is over is freed at once, as `tcp_close` does in
  SYN_SENT. What `read`, `write`, lwIP and the resolver answer is part of the event.
- `Relay`: a refused chain of non-empty pbufs is presented again unchanged. Runs have chains of
  pbufs of equal length; single calls need only the exact condition.
- `Socks`: the client waits for the method reply before it sends its request.

## Where code and comments differ

- `contrib/apps/smtp/smtp.c:414-417` speaks of converting single line breaks in the body; the code
  rejects every line break, and lets a CR without LF pass where line breaks are allowed.
- `contrib/apps/smtp/smtp.c:804` calls the function a base64 encoder; for lengths that are multiples
  of three it appends a group that no decoder accepts.
- `src/ocproxy.c:503-515` goes on with a slot that a failed reply has deleted.
- `src/ocproxy.c:548-551` speaks of killing a connection when its lookup returns; no slot is marked
  while its lookup is outstanding, and one marked because its lookup failed is never freed.

## Model

| member | source | states |
|---|---|---|
| `Mailbox.CoreAlways` | contrib/ports/unix/sys_arch.c:193-347 | in every interleaving at most one thread is inside the mutex, the ring holds exactly the messages posted and not fetched, and `wait_send` counts the waiting posters |
| `Mailbox.RefinesBoundedFifo` | contrib/ports/unix/sys_arch.c:193-347 | every step of every run enqueues at the back of a queue with room, dequeues from the front of a non-empty one, or leaves the queue alone |
| `Mailbox.FetchedIsPrefixOfPosted` | contrib/ports/unix/sys_arch.c:268-347 | what was fetched is always a prefix of what was posted, at most 127 messages behind |
| `Mailbox.CallsComplete` | contrib/ports/unix/sys_arch.c:206-347 | in every run a post that returns has put its message into the box once, a trypost has or found it full, a fetch has taken one message or timed out, and a tryfetch has or found the box empty |
| `Mailbox.OnlyArguments` | contrib/ports/unix/sys_arch.c:206-265 | whatever a step puts into the box is the message of the call its thread is in |
| `Mailbox.QueueIsPosted` | contrib/ports/unix/sys_arch.c:206-219 | the ring contents are the posted messages from `first` on, so no live slot was overwritten |
| `Mailbox.ExclusiveStep` | contrib/ports/unix/sys_arch.c:231-265 | each step keeps mutual exclusion and the semaphores binary |
| `Mailbox.FifoStep` | contrib/ports/unix/sys_arch.c:206-258 | each step keeps the correspondence between ring and history |
| `Mailbox.SafeAlways` | contrib/ports/unix/sys_arch.c:230-347 | a fetcher asleep with `not_empty` at 0 means an empty box or a thread about to signal, and a poster asleep with `not_full` at 0 a non-empty box or a thread in transit |
| `Mailbox.NoStrandedThread` | contrib/ports/unix/sys_arch.c:230-347 | when every active thread is blocked, either only the fetcher sleeps and the box is empty, or nobody fetches and the box is not empty |
| `MailboxSleepers.FetchersSafeIff` | contrib/ports/unix/sys_arch.c:300-347 | in every run no fetcher is asleep beside a message with no signal to come, exactly when at most one thread uses the blocking fetch or there are at most two threads |
| `MailboxSleepers.PostersSafeIff` | contrib/ports/unix/sys_arch.c:230-265 | in every run no poster is asleep beside a box with room and no signal to come, exactly when at most one thread uses the blocking post or there are at most two threads |
| `MailboxSleepers.TwoFetchersStrand` | contrib/ports/unix/sys_arch.c:300-347 | for any two fetchers and a third thread, a run in which one fetcher stays asleep beside a non-empty box |
| `MailboxSleepers.TwoPostersStrand` | contrib/ports/unix/sys_arch.c:230-265 | for any two posters and a third thread, a run in which two fetches leave one token and one poster stays asleep beside a box with room |
| `MailboxSleepers.OnePosterSafe` | contrib/ports/unix/sys_arch.c:238-248 | a sole blocking poster asleep beside room is about to be signalled |
| `MailboxSleepers.PairFetchesAlways` | contrib/ports/unix/sys_arch.c:300-347 | of two threads, a fetcher asleep beside a message is about to be signalled by the other |
| `MailboxSleepers.PairPostsAlways` | contrib/ports/unix/sys_arch.c:230-265 | the same for a poster asleep beside room |
| `RecursiveLock.SoundAlways` | contrib/ports/unix/sys_arch.c:514-553 | without a thread id 0xDEAD at most one thread is inside, the count is its nesting depth, and only the owner skips the mutex |
| `RecursiveLock.OneInside` | contrib/ports/unix/sys_arch.c:514-553 | in terms of calls: at most one thread has returned from more protects than it has called unprotects, it holds the mutex, and the count is the difference |
| `RecursiveLock.DepthIsBalance` | contrib/ports/unix/sys_arch.c:514-553 | the depth is that difference: every protect that returns has raised it |
| `RecursiveLock.DeadIdSkipsMutex` | contrib/ports/unix/sys_arch.c:514-553 | a run in which a thread with id 0xDEAD takes the lock without the mutex |
| `RecursiveLock.SoundIffNoDeadId` | contrib/ports/unix/sys_arch.c:514-553 | every run of a set of threads is sound exactly when none has the id 0xDEAD |
| `RecursiveLock.InvStep` | contrib/ports/unix/sys_arch.c:514-553 | each step keeps the invariant behind this, the unlocked read included |
| `Select.NoMissedWakeup` | lwip/src/api/sockets.c:1206-1250 | a thread asleep in `lwip_select` and not yet signalled asked for no socket that has data, room or an error pending, except one whose `event_callback` still has this thread's entry ahead of it |
| `Select.CallReturns` | lwip/src/api/sockets.c:1157-1307 | a call that did not time out returns what its last scan found; it returns from the first scan only with an event or if it must not wait; one that timed out returns nothing |
| `Select.ScanExact` | lwip/src/api/sockets.c:1093-1147 | a scan finds of every socket exactly the events that were asked for and pending when it came to that socket |
| `Select.SignalledForCause` | lwip/src/api/sockets.c:1388-1413 | a thread is signalled only if the socket walked for has an event it asked for |
| `Select.EventSets` | lwip/src/api/sockets.c:1353-1372 | what each event does to the three fields of its socket, and that it changes no other socket |
| `Select.LateIsTimeout` | lwip/src/api/sockets.c:1243-1289 | a call counts as timed out exactly if it left its sleep without the semaphore |
| `Select.SignalledSleeperWakes` | lwip/src/api/sockets.c:1234-1251 | a sleeper is signalled exactly when its semaphore is raised, and that at most once per call |
| `Select.WalkIsSafe` | lwip/src/api/sockets.c:1388-1425 | the entry a walk reads its successor from, and the entry it goes to, are linked, and the semaphore it may signal exists |
| `Select.WalkStartIsSafe` | lwip/src/api/sockets.c:1382-1413 | so is the entry treated first, in the region that sets the event field |
| `Select.SelectAssertionsHold` | lwip/src/api/sockets.c:1220-1276 | the assertions on the head of the list and on `select_waiting` hold in every interleaving |
| `Select.InvAlways` | lwip/src/api/sockets.c:1157-1427 | in every run the doubly linked list is well formed, `select_waiting` is the number of registered waiters per socket, and no wake-up is missed |
| `Select.LinkOk` | lwip/src/api/sockets.c:1205-1218 | linking an entry in front keeps the list well formed |
| `Select.RemoveOk` | lwip/src/api/sockets.c:1265-1279 | unlinking an entry, wherever it is, keeps the list well formed |
| `Select.TallyStep` | lwip/src/api/sockets.c:1220-1264 | each step keeps `select_waiting` equal to the number of waiters |
| `Select.MissStep` | lwip/src/api/sockets.c:1157-1307 | a step of a selecting thread misses no event |
| `Select.MissEvent` | lwip/src/api/sockets.c:1353-1386 | setting an event field starts a walk that has every affected sleeper ahead of it |
| `Select.MissWalk` | lwip/src/api/sockets.c:1388-1425 | a step of the walk, restart included, leaves no affected sleeper behind unsignalled |
| `Select.TargetLinked` | lwip/src/api/sockets.c:1388-1425 | the next entry of a walk is the head or the successor of an entry that is still linked, as the change counter shows |
| `AcceptEvents.CountConserved` | lwip/src/api/sockets.c:446-454 | once the socket is installed, `rcvevent` is the number of RCVPLUS less RCVMINUS events that took effect, but for RCVMINUS events that came too early, modulo the width of the field |
| `AcceptEvents.ExactIffNoneLost` | lwip/src/api/sockets.c:1326-1361 | with no event under way and within s16 range, `rcvevent` is RCVPLUS minus RCVMINUS exactly when no RCVMINUS came before the installation |
| `AcceptEvents.EventsCounted` | lwip/src/api/sockets.c:1326-1361 | the same with the events and the dropped ones counted over the steps of the run |
| `AcceptEvents.CountsAre` | lwip/src/api/sockets.c:1326-1361 | the counters are the numbers of those steps |
| `AcceptEvents.EarlyMinusIsLost` | lwip/src/api/sockets.c:1326-1345 | a run in which an early RCVMINUS is lost and the count is one too high |
| `AcceptEvents.RoutedToInstalled` | lwip/src/api/sockets.c:1326-1345 | an event past its checks of the socket number goes to the installed socket |
| `AcceptEvents.InvStep` | lwip/src/api/sockets.c:307-336 | each step of allocation, installation and events keeps the count |
| `RecvStream.ReadStream` | lwip/src/api/sockets.c:625-796 | for any stream of pbufs, any times of arrival and any sequence of calls: each call returns the bytes of the stream from where the calls before it had come to, those with MSG_PEEK not counted, at most as many as asked for, and some if it may wait and nothing fails; `netconn_recved` got as many bytes as were returned |
| `RecvStream.OneCall` | lwip/src/api/sockets.c:625-796 | the same for one call, from any state of the socket |
| `RecvStream.PeekThenRead` | lwip/src/api/sockets.c:625-796 | so what a peek shows and what the next call returns start alike |
| `RecvStream.TcpSocket.RecvFrom` | lwip/src/api/sockets.c:625-796 | one call: at most the length asked for, the rest of memory untouched, the stream position moved by what was returned or, with MSG_PEEK, not at all; data left over is always returned |
| `RecvStream.TcpSocket.Loop` | lwip/src/api/sockets.c:643-788 | the loop ends, and copies consecutive bytes of the stream across pbufs |
| `RecvStream.TcpSocket.Take` | lwip/src/api/sockets.c:701-717 | one pbuf: the smaller of the length asked for and what is left of it is copied to its place |
| `RecvStream.TcpSocket.Advance` | lwip/src/api/sockets.c:768-787 | `lastdata` and `lastoffset` keep what is left |
| `Netconn.NoAssertionFails` | lwip/src/api/api_msg.c:747-890 | in every run no assertion on state, message, offset or pcb fails, those of a write before and after its wait included, and an idle netconn with a pcb has no message and offset 0 |
| `Netconn.InvAlways` | lwip/src/api/api_msg.c:277-405 | the invariant of the netconn over whole runs |
| `Netconn.AssertsHold` | lwip/src/api/api_msg.c:1368-1415 | in a state with the invariant the assertions of the next step hold, those around the wait of a write included |
| `Netconn.InvStep` | lwip/src/api/api_msg.c:938-1043 | every event keeps the invariant |
| `Netconn.StaleOffsetIffLateError` | lwip/src/api/api_msg.c:1334-1338 | a step leaves an idle netconn with a stale write offset exactly when `tcp_write` fails hard after part was accepted |
| `Netconn.StrayTokenIffStrayWrite` | lwip/src/api/api_msg.c:1341-1358 | a step leaves a completion token nobody waits for exactly when it is one of the stray writes |
| `Netconn.LateErrorBreaks` | lwip/src/api/api_msg.c:1334-1338 | a run in which such an error makes the assertion of the next write fail |
| `Netconn.StrayWriteBreaks` | lwip/src/api/api_msg.c:1388-1395 | a run in which such a token wakes the next blocking write while it is in progress, and the assertion after its wait fails |
| `Netconn.BlockingWriteExact` | lwip/src/api/api_msg.c:1230-1359 | a blocking write that ends, after any rounds and shortages: every byte accepted once and in order, all reported, the caller signalled once if it waited and not at all if the first call finished |
| `Netconn.BlockingWriteEnds` | lwip/src/api/api_msg.c:1230-1359 | a blocking write whose rounds are accepted with room for a byte or more is over after at most as many rounds as it has bytes |
| `Netconn.RoundTakes` | lwip/src/api/api_msg.c:1243-1332 | a round takes the least of what remains, 0xffff and the send buffer, or nothing if `tcp_write` refuses, and when it ends the write |
| `Netconn.NonblockingWrite` | lwip/src/api/api_msg.c:1369-1410 | a write without blocking takes what there is room for and reports it, or fails and takes nothing |
| `Netconn.WriteRefused` | lwip/src/api/api_msg.c:1369-1410 | a write in any other state only reports failure |
| `Netconn.TokenIffOver` | lwip/src/api/api_msg.c:1341-1358 | a waiting caller gets its token exactly when TCP has taken its last byte or refuses the write, grants the close, finishes the handshake, or the connection breaks |
| `Netconn.CloseEnds` | lwip/src/api/api_msg.c:1486-1519 | when a close is refused, granted or left pending, and when the pcb goes |
| `Netconn.CloseTickEnds` | lwip/src/api/api_msg.c:277-337 | a pending close ends exactly when TCP grants it |
| `Netconn.RequestTakesEffect` | lwip/src/api/api_msg.c:832-1130 | exactly when connect, listen, delete and the mode switch take effect, and which callers then wait |
| `Netconn.ConnectionEnds` | lwip/src/api/api_msg.c:347-405 | a broken connection leaves an idle netconn without pcb, a pending write reported as failed and its caller woken; a finished handshake wakes a blocking connect |
| `Netconn.BlockingWriteSoFar` | lwip/src/api/api_msg.c:1230-1359 | while it lasts, what was accepted is a prefix of the data and the caller waits unsignalled |
| `Netconn.WriteRoundExact` | lwip/src/api/api_msg.c:1243-1359 | the same for one round, from any offset |
| `Netconn.RoundFacts` | lwip/src/api/api_msg.c:1243-1332 | a round that does not finish is one of a blocking write with more to come and no hard error |
| `Netconn.TcpNetconn.AttemptWrite` | lwip/src/api/api_msg.c:1243-1340 | a round writes the least of what remains, 0xffff and the send buffer if `tcp_write` accepts it, and nothing otherwise |
| `Netconn.TcpNetconn.FinishRound` | lwip/src/api/api_msg.c:1313-1358 | what is booked after a round |
| `Netconn.TcpNetconn.DoWriteMore` | lwip/src/api/api_msg.c:1230-1359 | a whole round, and whether sending goes on |
| `Netconn.TcpNetconn.DoWrite` | lwip/src/api/api_msg.c:1368-1415 | a write request, for every state of the netconn, up to its wait |
| `Netconn.TcpNetconn.Woken` | lwip/src/api/api_msg.c:1392-1395 | the end of the wait |
| `Netconn.TcpNetconn.Handle` | lwip/src/api/api_msg.c:277-405 | any call or callback meets its assertions, does what the model says and keeps the invariant |
| `Netconn.Drive` | lwip/src/api/api_msg.c:277-405 | the code, offered any events, goes through the states of the model |
| `Netconn.PlayIsRun` | lwip/src/api/api_msg.c:277-405 | these are the states of a run, so what holds of all runs holds of the code |
| `Netconn.TcpNetconn.DoCloseInternal` | lwip/src/api/api_msg.c:747-823 | one attempt to close |
| `Netconn.TcpNetconn.DoClose` | lwip/src/api/api_msg.c:1486-1519 | a close or shutdown request |
| `Netconn.TcpNetconn.DoDelconn` | lwip/src/api/api_msg.c:832-890 | a delete request |
| `Netconn.TcpNetconn.DoConnect` | lwip/src/api/api_msg.c:985-1043 | a connect request |
| `Netconn.TcpNetconn.DoConnected` | lwip/src/api/api_msg.c:938-976 | the end of the handshake |
| `Netconn.TcpNetconn.ErrTcp` | lwip/src/api/api_msg.c:347-405 | a fatal error at any time |
| `Netconn.TcpNetconn.SentOrPoll` | lwip/src/api/api_msg.c:277-337 | the sent and poll callbacks, which resume a write or a close |
| `Ssi.Serve` | contrib/apps/httpserver_raw/httpd.c:1485-1547 | any number of calls with any room in between: what was sent is a prefix of the expansion; when the connection is closed it is the expansion exactly when the file does not end in a tag with an insert; over a connection that always takes at least one byte the end is reached |
| `Ssi.SentIsPrefix` | contrib/apps/httpserver_raw/httpd.c:1162-1475 | in every state of a transfer the bytes sent are a prefix of the expansion of the whole file |
| `Ssi.CompleteAtEof` | contrib/apps/httpserver_raw/httpd.c:1523-1544 | with all file bytes out, the whole expansion is out exactly when the file does not end in such a tag |
| `Ssi.TagAtEnd` | contrib/apps/httpserver_raw/httpd.c:1303-1345 | a file that ends in a tag, with any white space around its name, is such a file exactly when the tag's insert is not empty |
| `Ssi.TagAloneIsCut` | contrib/apps/httpserver_raw/httpd.c:1523-1544 | a file that is a single tag is closed with the insert still to be sent, even over a willing connection |
| `Ssi.SentAtEof` | contrib/apps/httpserver_raw/httpd.c:1523-1544 | what is missing then is the insert of that tag |
| `Ssi.TagParsed` | contrib/apps/httpserver_raw/httpd.c:1303-1345 | completing a tag adds exactly its insert to what is unsent |
| `Ssi.ByteParsed` | contrib/apps/httpserver_raw/httpd.c:1203-1300 | any other byte adds exactly itself |
| `Ssi.InsertBytesSent` | contrib/apps/httpserver_raw/httpd.c:1424-1443 | sending part of an insert keeps the rest in place |
| `Ssi.FileBytesSent` | contrib/apps/httpserver_raw/httpd.c:1179-1192 | sending part of the parsed file keeps the rest in place |
| `Ssi.Pcb.HttpWrite` | contrib/apps/httpserver_raw/httpd.c:620-667 | what is accepted is a prefix of the data, after any number of halvings |
| `Ssi.HttpState.constructor` | contrib/apps/httpserver_raw/httpd.c:2134-2185 | a fresh transfer satisfies the invariant |
| `Ssi.HttpState.GetTagInsert` | contrib/apps/httpserver_raw/httpd.c:829-880 | the answer of the handler for the first registered tag of this name, or the text for an unknown tag |
| `Ssi.HttpState.ParseNone` | contrib/apps/httpserver_raw/httpd.c:1205-1221 | plain text keeps the invariant and uses up one byte |
| `Ssi.HttpState.ParseLeadIn` | contrib/apps/httpserver_raw/httpd.c:1223-1247 | so does a lead-in; after it no byte is used up |
| `Ssi.HttpState.ParseFound` | contrib/apps/httpserver_raw/httpd.c:1249-1300 | so does a tag name |
| `Ssi.HttpState.ParseLeadOut` | contrib/apps/httpserver_raw/httpd.c:1303-1377 | so does a lead-out, at whose end the insert is fetched |
| `Ssi.HttpState.SendTag` | contrib/apps/httpserver_raw/httpd.c:1384-1457 | a tag being sent gets nearer to its end whenever TCP takes something |
| `Ssi.HttpState.SendDataSsi` | contrib/apps/httpserver_raw/httpd.c:1162-1475 | a call ends, keeps the invariant, and sends something if the connection is willing |
| `Ssi.HttpState.Send` | contrib/apps/httpserver_raw/httpd.c:1485-1547 | the connection is closed exactly when every byte of the file is out |
| `SsiSpec.ExpandMonotone` | contrib/apps/httpserver_raw/httpd.c:1162-1475 | the expansion of a prefix of a file is a prefix of its expansion |
| `SsiSpec.TagExpands` | contrib/apps/httpserver_raw/httpd.c:1249-1345 | a tag in plain text, with any white space around its name, is kept and followed by its insert |
| `SsiSpec.PageExpands` | contrib/apps/httpserver_raw/httpd.c:1162-1475 | every page of plain text and tags comes out with each tag followed by its insert |
| `SsiSpec.RegisteredTagExpands` | contrib/apps/httpserver_raw/httpd.c:844-862 | a tag first registered at i is followed by what the handler says for i and the number of tags before |
| `SsiSpec.InsertOfTag` | contrib/apps/httpserver_raw/httpd.c:844-862 | the insert for a name is the answer for the first place where it is registered |
| `SsiSpec.InsertUnknown` | contrib/apps/httpserver_raw/httpd.c:865-880 | or the error text with the name up to its first NUL |
| `SsiSpec.OnlyTagsComplete` | contrib/apps/httpserver_raw/httpd.c:1303-1345 | an insert only ever follows the text of a tag of that name |
| `SsiSpec.StrayOpenerHidesTag` | contrib/apps/httpserver_raw/httpd.c:1223-1247 | after a stray opening character everything up to the next one is copied, a tag included |
| `SsiSpec.InsertBounded` | contrib/apps/httpserver_raw/httpd.c:829-880 | an insert fits its buffer |
| `Base64.EncodeBits` | contrib/apps/smtp/smtp.c:805-836 | the bit loop leaves the characters of the encoding in the target, and the rest of it untouched |
| `Base64.EncodeByte` | contrib/apps/smtp/smtp.c:822-831 | eight bits more of it, from any position within a character |
| `Base64.ResultIsEncoding` | contrib/apps/smtp/smtp.c:805-836 | those characters are the encoding of section 4 of RFC 4648, followed by "A===" when the length is a multiple of three |
| `Base64.RoundTrip` | contrib/apps/smtp/smtp.c:805-836 | the strict decoder undoes that encoding |
| `Base64.DecodesBackIff` | contrib/apps/smtp/smtp.c:811-834 | what the encoder writes decodes back exactly when the length is no multiple of three |
| `MailText.Verify` | contrib/apps/smtp/smtp.c:629-661 | text is accepted exactly when it has seven bits, no LF without a CR before it, no CR after a CR, and no CR at all where line breaks are not allowed |
| `MailText.ConformsOneLine` | contrib/apps/smtp/smtp.c:413-430 | as it is called, the check leaves exactly seven-bit text without CR and LF |
| `MailText.UniqueEndIff` | contrib/apps/smtp/smtp.c:1058-1136 | for every accepted mail, CRLF.CRLF stands in header, body and terminator only at the end, exactly when the body is not a single dot |
| `SmtpScript.IsResponseFinished` | contrib/apps/smtp/smtp.c:877-908 | true exactly when the text holds a response: lines that each end at the first CRLF after their fourth character and begin after the CRLF of the line before, with a dash as fourth character in all but the last and a space in the last |
| `SmtpScript.ResponseAt` | contrib/apps/smtp/smtp.c:884-907 | how one line decides this |
| `SmtpScript.ReplyIsNextLine` | contrib/apps/smtp/smtp.c:1197-1283 | whatever the client answers is the next line of the script, and the response carried the code that line waits for |
| `SmtpScript.ReplySuits` | contrib/apps/smtp/smtp.c:1197-1283 | and the response offered the mechanism, or asked for the name or password, that the line answers |
| `SmtpScript.OfferedIsChosen` | contrib/apps/smtp/smtp.c:936-986 | the mechanism is PLAIN exactly when that stands between the keyword and the end of its line, otherwise LOGIN exactly when that does, otherwise none |
| `SmtpScript.ScriptReads` | contrib/apps/smtp/smtp.c:134-165 | the dialogue without authentication, to the letter, with the code each line waits for |
| `SmtpScript.AuthScriptReads` | contrib/apps/smtp/smtp.c:134-165 | how it begins with authentication, and that it then goes on alike |
| `SmtpScript.CodeRead` | contrib/apps/smtp/smtp.c:845-866 | three digits at the start of a response are its code |
| `SmtpScript.UsernamePromptIs` | contrib/apps/smtp/smtp.c:125-126 | the prompt waited for is the base64 form of "Username:" |
| `SmtpScript.PasswordPromptIs` | contrib/apps/smtp/smtp.c:125-126 | and of "Password:" |
| `SmtpScript.DataSection` | contrib/apps/smtp/smtp.c:1058-1136 | between DATA and QUIT the script is the content of the mail |
| `SmtpScript.WrittenEndsOnce` | contrib/apps/smtp/smtp.c:1058-1136 | for an accepted mail whose body is not a single dot, what was written after DATA, however much of it, has the end of mail data only where the client puts it |
| `Smtp.Converse` | contrib/apps/smtp/smtp.c:665-744 | any calls in any order: after each of them what is written is a prefix of EHLO, perhaps AUTH, MAIL, RCPT, DATA, header, body, terminator, QUIT, and every line begun that waits for a reply has a complete one with its code in the text received so far, no two the same, the mechanism being the one offered; at most one result, and success only with everything written |
| `Smtp.Deliver` | contrib/apps/smtp/smtp.c:1140-1314 | a server that answers as expected over a willing connection, its replies coming in pieces of which the first holds the code, gets the whole script for the mechanism its reply to EHLO offers, in however small pieces the body goes out, and success is reported once |
| `Smtp.SplitCodeIsLost` | contrib/apps/smtp/smtp.c:1179-1195 | a reply whose first piece ends within its code is thrown away, and nothing is said |
| `Smtp.Session.Silence` | contrib/apps/smtp/smtp.c:706-718 | if the server says nothing more, the session is closed after as many polls as the timer says, and a timeout is reported |
| `Smtp.JustifiedEndsOnce` | contrib/apps/smtp/smtp.c:1097-1136 | in every state of every run a server finds the end of the mail only where the client put it, whatever the pieces of the body |
| `Smtp.SoundIsJustified` | contrib/apps/smtp/smtp.c:1140-1314 | in every state of a session the text received justifies the text written and the result |
| `Smtp.HeardMore` | contrib/apps/smtp/smtp.c:1162-1169 | more text received keeps the replies acted upon where they are |
| `Smtp.LineSaid` | contrib/apps/smtp/smtp.c:1284-1303 | writing the answer to a complete response, and throwing the response away, keeps every line with a reply of its own |
| `Smtp.EndSaid` | contrib/apps/smtp/smtp.c:1122-1135 | so does the terminator, once the whole body is out |
| `Smtp.Session.Process` | contrib/apps/smtp/smtp.c:1140-1314 | keeps the session sound; writes only for a complete expected response or the body in progress; does nothing after its end; closes when the time is up; an expected response, new or kept since a write failed, leads to the next state over a willing connection |
| `Smtp.Session.Respond` | contrib/apps/smtp/smtp.c:1197-1313 | a complete response: the expected one leads on over a willing connection, any other closes with the error for it |
| `Smtp.Session.Say` | contrib/apps/smtp/smtp.c:1291-1303 | a command is written whole and the state moves on, or nothing changes |
| `Smtp.Session.SendBody` | contrib/apps/smtp/smtp.c:1097-1136 | the body continues where it stopped, in pieces of any size, and the terminator follows it |
| `Smtp.Session.Close` | contrib/apps/smtp/smtp.c:680-694 | the session ends with this result reported, or, if the close failed, is as it was |
| `Smtp.Session.Free` | contrib/apps/smtp/smtp.c:665-677 | the result is reported once |
| `Smtp.Session.Poll` | contrib/apps/smtp/smtp.c:707-718 | closes with a timeout when the counter has run down; otherwise a response whose answer could not be written is answered again |
| `Smtp.Session.Recv` | contrib/apps/smtp/smtp.c:732-744 | text without a code is thrown away, an incomplete response kept, an expected one answered; the end of the stream closes with the error for it |
| `Smtp.Session.Err` | contrib/apps/smtp/smtp.c:696-704 | an error ends the session and is reported |
| `Proxy.Run` | src/ocproxy.c:231-648 | any run, from startup with any number of listeners on, event by event: each world is what the event makes of the one before; in each the free list is a proper list of distinct slots to which no armed event, pcb or lookup points, and with the slots in use it makes up the pool; the only exception is the world after a success reply cut short, where the run stops |
| `Proxy.Dispatch` | src/ocproxy.c:231-648 | the callbacks do what the machine does for the event, and leave a safe pool exactly unless a success reply is cut short |
| `Proxy.Startup` | src/ocproxy.c:836-845 | the listeners and the VPN socket each take a slot; the process ends exactly when there are not enough |
| `ProxySteps.StepOk` | src/ocproxy.c:231-648 | every event keeps the invariant exactly unless it cuts a success reply short; it loses exactly the slots whose name could not be resolved |
| `ProxySteps.FreedIff` | src/ocproxy.c:231-648 | a slot in use is given back exactly when its client has gone or asks for something unsupported, its pcb is lost, or its stream ends |
| `ProxySteps.StateIff` | src/ocproxy.c:403-515 | what makes a slot in use change its state: a complete greeting, a request, the answer to its lookup, the end of the handshake |
| `ProxySteps.AnswerBecomes` | src/ocproxy.c:544-608 | what the answer to a lookup leads to, with the second try |
| `ProxySteps.ClientBecomes` | src/ocproxy.c:626-648 | what becomes of a new client, and that it gets the first free slot or nothing |
| `ProxySteps.ArmedIff` | src/ocproxy.c:284-328 | the event of a relaying slot is armed after a sent callback on its pcb, and otherwise if it was before, unless lwIP had no room when it fired |
| `ProxySteps.SentResumes` | src/ocproxy.c:315-328 | in every run a slot blocked for want of room is armed again by the next sent callback |
| `ProxySteps.CutShortHarms` | src/ocproxy.c:502-515 | after a success reply cut short a free slot has an armed event |
| `ProxySteps.LostIffFailed` | src/ocproxy.c:261-266 | in every run a slot is marked and never freed exactly if at some time its name could not be resolved: `ocp_sock_del` only marks it, and no callback will come back to it |
| `ProxySteps.RefusedUseUp` | src/ocproxy.c:563-567 | clients whose names cannot be resolved use the pool up, one slot each |
| `ProxySteps.ResolvingAt` | src/ocproxy.c:544-608 | whatever the resolver says, the slot then has a lookup outstanding, or a new pcb that points back to it, or is lost |
| `SlotPool.LostIff` | src/ocproxy.c:261-277 | of the slots in use that are not listeners, exactly the lost ones are referenced by nobody: every other has an armed event, a pcb or a lookup |
| `SlotPool.FramedTaken` | src/ocproxy.c:231-259 | taking a slot keeps the invariant although it reuses the link for the bind list |
| `SlotPool.FreedOk` | src/ocproxy.c:267-276 | freeing a slot keeps it, and nobody points to the slot afterwards |
| `SlotPool.InvIsSafe` | src/ocproxy.c:261-277 | the invariant implies that nobody points to a free slot |
| `SlotPool.BindListAtStartup` | src/ocproxy.c:800-834 | until a slot is released, the bind list holds every slot in use once and the free list the others |
| `Proxy.ShortReplyBreaks` | src/ocproxy.c:502-515 | a run in which a success reply cut short leaves a free slot with an armed event |
| `Proxy.Ocproxy.SockNew` | src/ocproxy.c:231-259 | takes the head of the free list, or changes nothing and fails exactly when that is empty |
| `Proxy.Ocproxy.SockDel` | src/ocproxy.c:261-277 | a slot that waits for the resolver is only marked; another goes to the head of the free list, its event disarmed and its pcb closed |
| `Proxy.Ocproxy.ConnectCb` | src/ocproxy.c:502-515 | the slot relays with its event armed; keeps the invariant exactly when the success reply was written in full or none was due |
| `Proxy.Ocproxy.TcpErr` | src/ocproxy.c:487-499 | the slot of a lost pcb is freed, with its event |
| `Proxy.Ocproxy.StartConnection` | src/ocproxy.c:517-542 | the slot gets a new pcb that points back to it |
| `Proxy.Ocproxy.FinishResolution` | src/ocproxy.c:544-568 | connects a slot whose address was found, marks one whose address was not, and frees one marked before, which by the invariant no lookup is outstanding for |
| `Proxy.Ocproxy.EnqueueDnsReq` | src/ocproxy.c:570-594 | the first lookup that is not refused decides: it is outstanding, or the slot connects; if none is left the slot is marked |
| `Proxy.Ocproxy.RetryResolution` | src/ocproxy.c:596-608 | asks once more, with the domain, exactly if nothing was found and there is one, and otherwise finishes |
| `Proxy.Ocproxy.Answer` | src/ocproxy.c:544-608 | an answer takes the lookup away and does what the machine does |
| `Proxy.Ocproxy.NewConn` | src/ocproxy.c:626-648 | a SOCKS client waits armed for its greeting, another for the name of its host; without a free slot nothing happens |
| `Proxy.Ocproxy.SentCb` | src/ocproxy.c:315-328 | arms the event of a slot again exactly if that was blocked |
| `Proxy.Ocproxy.RecvCb` | src/ocproxy.c:331-366 | the end of the stream or a failed write frees the slot of the pcb; nothing else changes the pool |
| `Proxy.Ocproxy.EventFires` | src/ocproxy.c:284-312 | an event finds its slot in use and, while relaying, with its pcb; a client that has gone frees the slot; otherwise the event is armed again, unless lwIP has to make room first |
| `Proxy.Ocproxy.SocksCmdData` | src/ocproxy.c:403-480 | what each kind of read does to a slot during the negotiation |
| `Relay.RelayStream` | src/ocproxy.c:331-377 | any number of presentations of chains of equal pbufs: delivered are the accepted chains and the part of the next that is out, in order and once; `tcp_recved` got as many bytes; each chain was freed once; the slot is deleted exactly if a write failed; if none does and each takes a byte or more, enough presentations deliver everything |
| `Relay.Socket.Recv` | src/ocproxy.c:331-377 | one call, from wherever it resumes: exactly the bytes between the old and the new `done_len` are delivered; it aborts and deletes the slot exactly when a write failed, refuses the chain exactly when one was short, and accepts it exactly when all were whole |
| `Relay.Socket.Skip` | src/ocproxy.c:353-354 | where the skip loop arrives |
| `Relay.SkipExactIff` | src/ocproxy.c:353-354 | the skip loop finds the next byte exactly when its pbuf is as long as the first and none before it is too long |
| `Relay.EqualIsResumable` | src/ocproxy.c:353-354 | pbufs of equal length always satisfy this |
| `Relay.UnequalGoesWrong` | src/ocproxy.c:353-354 | a chain of three and five bytes that does not |
| `Socks.Negotiate` | src/ocproxy.c:403-480 | a greeting and an IPv4 request in reads of any size: one method reply, and the address and port asked for (sections 3 and 4 of RFC 1928) |
| `Socks.SplitIndependent` | src/ocproxy.c:403-480 | the outcome of any bytes, well formed or not, does not depend on the split, unless they ask for a name |
| `Socks.RequestOutcome` | src/ocproxy.c:439-472 | which requests, in reads of any size, are disconnected, refused with code 7 or 8, connected or looked up |
| `Socks.GreetingOutcome` | src/ocproxy.c:425-438 | which greetings are answered |
| `Socks.NamePortIff` | src/ocproxy.c:454-469 | a request for a name is looked up with its own port exactly when no read ends after the name and before the second byte of the port, or the buffer already holds the bytes that are missing |
| `Socks.NegotiateName` | src/ocproxy.c:403-480 | a greeting and a request for a name in reads of any size: the name asked for, and its own port exactly under that condition on the reads and what the greeting left behind |
| `Socks.SplitLosesPort` | src/ocproxy.c:454-469 | such a split, and the ports the code then uses: what an earlier greeting left in the buffer |
| `Socks.Client.CmdCb` | src/ocproxy.c:403-480 | a read leads to what all bytes of its phase so far amount to; the buffer holds them over what was there, and the port of a request is the one at its place in the buffer |
| `Socks.ReadPhase` | src/ocproxy.c:417-475 | reading goes on until the phase is settled, and the port is then that of the bytes read so far over what was there |

## Left out

- Concurrent code is modelled on values, so update in place of the ring, the waiter list and the socket array is a step that yields a new state; memory is sequentially consistent.
- `Mailbox.NoStrandedThread`: for one blocking fetcher only; `MailboxSleepers.FetchersSafeIff` says when more are safe.
- `Relay.RelayStream`: for chains of pbufs of equal length, since the skip loop goes wrong otherwise, as `Relay.SkipExactIff` states.
- `Proxy.Run`: stops at a success reply cut short, after which the source goes on with a slot that is free; running out of memory ends the process.
- `Proxy.Ocproxy.RecvCb`: the bytes it relays are in `Relay`, those of the SOCKS dialogue in `Socks`.
- `RecvStream.TcpSocket.RecvFrom`: `rcvevent` and the PUSH flag are arbitrary, and pbufs are not empty; UDP and raw sockets and the source address are not modelled.
- `Base64.EncodeBits`: the target is long enough, as the source asserts.
- The 255-byte transmit buffer of an SMTP session and the assertions on its length; 16-bit lengths of pbufs.
- Starting an SMTP session (`smtp_send_mail`, `smtp_set_auth`) and its timeouts beyond the poll counter.
- Widths of counters and indices, except `rcvevent`.
- Netconn events to the socket layer, receive and accept mailboxes, and non-TCP netconns.
- SSI with blocks read piecewise, multipart inserts, stripped tags or HTTP/0.9; request parsing, CGI and POST of the HTTP server.
- Socket options, `lwip_sendto`, address formatting, and the rest of the socket layer.
- lwIP's TCP, DNS and pbuf code, which appears as arbitrary answers, and byte order conversion.
- `src/vpnns.c`, the raw VPN link and option parsing of the proxy, and the other contributed applications and ports: system calls or thin wrappers with easy claims.
