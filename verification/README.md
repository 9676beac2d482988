# Process monitor: verified models

This project models the parts of the process monitor whose behaviour depends on state,
partial input and output, or interleaving, and proves what they promise:

- the request path of the VTS daemon: framing (`Framing`), sending (`Transport`),
  incremental receiving (`Connection`), the field codec and command-line protocol
  (`FieldCodec`, `CliProtocol`), the bounded work queue (`WorkQueue`), the deduplication
  cache (`Dedup`), the room registry (`Rooms`), and the server with any number of workers
  as one transition system (`Server`);
- the message pipeline: the line reader (`Lines`), the ring used by one thread (`Ring`)
  and by two at the granularity of loads and stores (`RingSteps`);
- libpm's procfs access: backoff (`Backoff`), circuit breaker (`Breaker`), the retry loop
  with its statistics (`ProcIo`), whole sequences of calls (`Calls`), over an arbitrary
  operating system (`Os`);
- the kernel driver: the self-rearming sampling work (`Sampling`) and the seqlock snapshot
  (`Seqlock`).

State that the source updates in place is a class whose methods are proved against
functions on values; the transition systems use the same functions. Sockets, system calls
and the clock are arbitrary scripts: a statement about every script is one about every
behaviour. `write` and `read` scripts are finite (an exhausted one reports an error or no
data); libpm's script is infinite, with a clock that never runs backwards and `usleep(v)`
taking at least v microseconds. The capacities 4096, 10240, 64 and 8 are parameters;
`MAX_FRAME` is the source's 2^20. Loads and stores of the ring are sequentially consistent.
In the driver, work is never run twice at a time, scheduling pending work has no effect,
and scheduling is refused while a cancel waits, as the kernel's workqueues guarantee.

Where the code does not do what its comments, tests or names say, the model follows the code:

- `json_get_str` returns a neighbouring value for `key` and `val` of an `edit` in the cases
  listed by `EditFields` (the server ignores both fields);
- the client silently cuts a payload of 512 characters or more; the server recovers the
  request exactly when the text up to the name's closing quote fits (`CliRoundTrip`);
- a legacy request whose id or operation is the text `cmd` is taken for a command-line
  request (`LegacyRoundTrip`);
- the location generator sends its request number unquoted; the server files every such
  request under the key that follows the number, so distinct requests are taken for
  repetitions of the first (`NumericId`, `RoomRequestsCollide`);
- a line longer than the buffer is not only split but loses a character at every cut
  (`LosslessIff`);
- in the ring's metrics only `max_depth` moves; the "bounded" shutdown drain is not
  bounded by 1000 but ends because the ring empties (`Ring.Fifo.Drain`);
- a push that finds the ring full writes the consumer's index, and a message can then be
  neither delivered, freed nor kept (`LostMessage`); a ring of one slot keeps nothing
  (`RingOfOne`);
- a reply whose header could not be written is still followed by its body
  (`BodyWithoutHeader`, and `ReplyIsFrame` for when a reply is a frame);
- a hard `open` failure is not recorded with the breaker, so calls on a missing path never
  trip it, although tests/libpm/test_cb.c expects that (`RepeatOnMissingPath`; which calls
  do trip it is `TripsExactly`);
- the seqlock word is 32 bits wide; a pass during which it goes exactly once round is
  accepted although torn (`WrappedPass`).

## Model

| member | source | states |
|---|---|---|
| Framing.Be32 | userspace/vts/include/vts_protocol.h:8-11 | the four header bytes are the base-256 digits of the length, most significant first, and read back to it |
| Framing.Be32OfFromBe32 | userspace/vts/include/vts_protocol.h:8-11 | every four header bytes are the encoding of the length they are read as |
| Framing.DecodeStream | userspace/vts/src/net_server.c:111-155 | complete frames at the front of any stream come out in order, whatever follows |
| Framing.DecodePrefix | userspace/vts/src/net_server.c:111-155 | a stream of legal frames cut at any byte decodes to a prefix of the payloads and never to a bad length |
| Framing.FrameRoundTrip | userspace/vts/include/vts_protocol.h:8-13 | decoding the stream of any legal payloads gives exactly them and leaves nothing over |
| Transport.SendFrame | userspace/loc_gen/src/vts_adapter.c:55-67 | which part of the frame is on the wire and whether the call succeeds, for every behaviour of `write`: the header must go out in one call, success is exactly the whole frame |
| Transport.SendPayload | userspace/loc_gen/src/vts_adapter.c:60-65 | the same for the payload, where an interrupted call ends the sending |
| Transport.WriteFull | userspace/vts/include/io_util.h:8-18 | the bytes that get out and the calls used are exactly those `Written` computes from the behaviour of the coming `write` calls; the full length is returned exactly for the whole |
| Transport.WrittenWhole | userspace/vts/include/io_util.h:8-18 | everything gets out if and only if the calls up to some point all take something, interruptions aside where they are retried, and together take enough |
| Transport.SendLengthPrefixed | userspace/vts/src/req_handler.c:55-60 | what reaches the wire for every behaviour of `write`: the part of the header that gets out, then the part of the body, whatever became of the header |
| Transport.ReplyIsFrame | userspace/vts/src/req_handler.c:55-60 | the wire gains one frame if and only if the coming calls let both writes finish, and part of one unless body bytes follow an unfinished header |
| Transport.BodyWithoutHeader | userspace/vts/src/req_handler.c:58-59 | an error on the header followed by a successful write puts the bare body on the wire |
| Transport.SendAll | userspace/loc_gen/src/vts_adapter.c:55-67 | how many frames go out whole follows from the behaviour of `write`; the wire always holds a prefix of the stream of payloads, containing all frames sent with success |
| Transport.GenerousStream | userspace/loc_gen/src/vts_adapter.c:55-67 | if as many calls as there are bytes each take four or more, every frame goes out |
| Connection.Conn.constructor | userspace/vts/src/net_server.c:86-91 | a new connection has consumed nothing and holds nothing |
| Connection.Conn.CheckLength | userspace/vts/src/net_server.c:126-136 | the connection stops exactly for a length of 0 or above 1048576; any other sets up an empty payload |
| Connection.Conn.ReadHeader | userspace/vts/src/net_server.c:117-137 | one more piece of a header keeps the fields equal to the bytes received since the last frame |
| Connection.Conn.ReadPayload | userspace/vts/src/net_server.c:140-148 | the same for one more piece of a payload |
| Connection.Conn.HandleFrame | userspace/vts/src/net_server.c:101-108 | the finished payload is appended to the pushed frames and the connection starts afresh |
| Connection.Conn.ReadFromConn | userspace/vts/src/net_server.c:111-155 | whatever the reads return, pushed frames and leftover fields are the one-shot decoding of all bytes received; a bad length stops right after its header; 1 is returned exactly for no more data now, 0 exactly for end of stream, -1 otherwise; while reads offer data the call goes on |
| Connection.Serve | userspace/vts/src/net_server.c:242-257 | the same over any number of readiness events; everything is read, unless a length is bad, if enough reads offer data and there are more events than reads in between that find none |
| Connection.Transfer | userspace/vts/src/net_server.c:111-155 | from sender to queue under any partial writes and reads, the delivered frames are a prefix of the payloads, and all of them once all was sent and read; conditions on the write and the read behaviour under which all is sent and all is read |
| Connection.SuppliedByCount | userspace/vts/src/net_server.c:118-148 | reads that only offer data or have none at the moment return as many bytes as there are offers, at least |
| FieldCodec.CStr | userspace/vts/src/req_handler.c:153 | the text before the first NUL |
| FieldCodec.FindIsFirst | userspace/vts/src/req_handler.c:91 | the search returns the first occurrence, or none exists |
| FieldCodec.IndexOf | userspace/vts/src/req_handler.c:93-95 | the first position of a character, or it does not occur |
| FieldCodec.Cut | userspace/vts/src/req_handler.c:96-98 | a copy is the whole text if it fits with its terminator and otherwise the longest prefix that does |
| FieldCodec.FindIsLocate | userspace/vts/src/req_handler.c:90-92 | in any text the quoted key is found exactly at the first piece between quotes that equals it |
| FieldCodec.ScanIsAfterColon | userspace/vts/src/req_handler.c:93-96 | the colon and quote scan returns the piece after the first one holding a colon, if a quote closes it |
| FieldCodec.GetStrIsLookup | userspace/vts/src/req_handler.c:88-100 | for every payload the character scan equals the lookup on the pieces between quotes |
| CliProtocol.Build | cli/src/system_monitor.c:71-108 | a payload is built if and only if the command is known and has enough arguments, help is shown if and only if asked for, and the payload fits the buffer |
| CliProtocol.NameLookup | userspace/vts/src/req_handler.c:88-100 | the name is found even when the target is itself the text name |
| CliProtocol.NameLost | userspace/vts/src/req_handler.c:88-100 | from any text cut before the name's closing quote no name is extracted |
| CliProtocol.TextRecovered | cli/src/system_monitor.c:87-103 | command, target cut to 31 and name cut to 63 come back if and only if the head of the text fits |
| CliProtocol.CliRoundTrip | cli/src/system_monitor.c:71-108 | for all arguments with quote-free target and name: the CLI handler is chosen, and the server sees the intended request if and only if the head fits, else refuses it |
| CliProtocol.EditFields | userspace/vts/src/req_handler.c:249-253 | exactly which text the lookups of key and val return for any quote-free edit |
| CliProtocol.LegacyRoundTrip | userspace/vts/src/req_handler.c:176-180 | a request that begins with quote-free id and op, whatever follows, goes to the legacy handler unless one of them is the text cmd or the rest quotes it, is filed under its id cut to 63, and fails exactly for the op FAIL |
| CliProtocol.MissingFields | userspace/vts/src/req_handler.c:178-180 | for every payload: without a quoted req_id it is filed under noid, without a quoted op it succeeds, and it is a command-line request exactly if it quotes cmd |
| CliProtocol.NumericId | userspace/loc_gen/src/vts_adapter.c:111-140 | whatever the number and the rest of the text, also if it is cut, a request with an unquoted number is filed under the next key |
| CliProtocol.RoomRequest | userspace/loc_gen/src/vts_adapter.c:124-140 | every delete or show, cut to the 256-byte buffer, not of a room named cmd, is a legacy request that succeeds under the id id |
| Rooms.SwapDeleteRemoves | userspace/vts/src/req_handler.c:130-137 | moving the last name into the hole removes exactly the one name and keeps names distinct |
| Rooms.ExecuteIsReference | userspace/vts/src/req_handler.c:117-144 | on a duplicate-free registry every command gives the code and the names of a bounded set |
| Rooms.CommandEffect | userspace/vts/src/req_handler.c:205-266 | from the argument words through client and server: which names are there afterwards and which code is given, for each command word, and refusal for another target or a text that does not fit |
| Rooms.Registry.Search | userspace/vts/src/req_handler.c:111-112 | the scan returns the position of the name or the count |
| Rooms.Registry.Exists | userspace/vts/src/req_handler.c:108-115 | true exactly for live names |
| Rooms.Registry.Create | userspace/vts/src/req_handler.c:117-128 | result and live prefix after creation, with duplicates and a full table |
| Rooms.Registry.Delete | userspace/vts/src/req_handler.c:130-144 | result and live prefix after deletion, which stays duplicate-free |
| Dedup.Cached | userspace/vts/src/req_handler.c:36-44 | a hit is the result of a used slot with this id; a miss means there is none |
| Dedup.CachedIsRecall | userspace/vts/src/req_handler.c:36-44 | searching the table is searching the window of recent misses |
| Dedup.TableIsWindow | userspace/vts/src/req_handler.c:176-203 | for every request sequence the replies are the reference's and the table is the window of the last misses, with distinct ids |
| Dedup.RepeatedId | userspace/vts/src/req_handler.c:182-202 | a repeated id gets its first answer exactly while fewer than n misses followed, and is treated as new from then on |
| Dedup.Repeats | userspace/vts/src/req_handler.c:182-202 | from any table, the next request with the same id gets the same answer and changes nothing |
| Dedup.Cache.Lookup | userspace/vts/src/req_handler.c:36-44 | the table loop computes the search |
| Dedup.Cache.Store | userspace/vts/src/req_handler.c:45-52 | the table after storing, unchanged for an empty id |
| Dedup.Cache.Serve | userspace/vts/src/req_handler.c:176-203 | reply and table of one undisturbed legacy request |
| WorkQueue.Queue.MakeRoom | userspace/vts/src/req_handler.c:160-168 | a full queue loses exactly its oldest item and any other nothing; the list stays well formed |
| WorkQueue.Queue.Append | userspace/vts/src/req_handler.c:169-170 | the node becomes the last of the list, for empty and non-empty lists |
| WorkQueue.Queue.Push | userspace/vts/src/req_handler.c:149-173 | the list stays well formed and bounded; a queue with room only gains the item, a full one loses its oldest; removed items followed by the queue are all pushed items in order |
| WorkQueue.Queue.Take | userspace/vts/src/req_handler.c:284-290 | the oldest item is returned; the same invariant holds |
| Server.QueueStep | userspace/vts/src/req_handler.c:149-173 | every step keeps the queue equal to the youngest arrivals in order, within the depth |
| Server.OnceStep | userspace/vts/src/req_handler.c:281-294 | every step keeps each request that left the queue dropped, held by one worker or answered, exactly once |
| Server.AwakeStep | userspace/vts/src/req_handler.c:169-172 | every step keeps min(N, queue length) workers awake, spurious wakeups included |
| Server.JustifiedStep | userspace/vts/src/req_handler.c:176-203 | every step keeps cache entries, pending answers and replies justified by requests |
| Server.LinearStep | userspace/vts/src/req_handler.c:205-266 | every step keeps the registry equal to a set that ran the same commands in lock order with the same codes |
| Server.OwnStep | userspace/vts/src/req_handler.c:281-294 | every step keeps the executed commands the own commands of arrived requests, none executed twice |
| Server.Safety | userspace/vts/src/req_handler.c:149-294 | all six invariants hold in every state of every interleaving, for any configuration |
| Server.NoLostWakeup | userspace/vts/src/req_handler.c:284-290 | in every reachable state at least min(N, qlen) workers are not asleep |
| Server.ArrivalsArePushes | userspace/vts/src/req_handler.c:149-158 | in every run the requests are the payloads and descriptors of the push steps, in order, judged by what is in them |
| Server.ReplyKind | userspace/vts/src/req_handler.c:268-274 | every reply goes to the descriptor of the pushed payload it answers, and is a legacy reply, a refusal or a room result exactly as that payload says |
| Server.LegacyReply | userspace/vts/src/req_handler.c:182-202 | every legacy reply has the id of the pushed payload it answers and a verdict that some pushed payload with that id deserves, and its own if these agree |
| Server.UndisturbedLegacy | userspace/vts/src/req_handler.c:182-202 | the two locked halves of a legacy request, run with nothing between them, are one request of the sequential cache |
| Server.RoomRequestsCollide | userspace/loc_gen/src/vts_adapter.c:124-140 | a delete or show after another, of any rooms and with any numbers, is answered from the cache |
| Server.RoomReply | userspace/vts/src/req_handler.c:222-263 | every room reply is the code that the command in the pushed payload gets from a plain set at one point between arrival and reply, in one order for all |
| Server.CommandsAreRequests | userspace/vts/src/req_handler.c:205-266 | in every reachable state each entry of the order the registry ran is the command of one pushed payload, and no other entry belongs to it |
| Server.LaterArrivals | userspace/vts/src/req_handler.c:149-173 | along a run the order of executed commands only grows, and a request that arrives finds all commands executed so far before it |
| Server.RoomOrder | userspace/vts/src/req_handler.c:106-144 | in every run, a command whose request arrives after another was answered takes effect after it |
| Server.RemovalOrder | userspace/vts/src/req_handler.c:160-170 | in every run, removed requests followed by the queue are the push order |
| Server.MovesAreBounded | userspace/vts/src/req_handler.c:281-294 | without pushes the workers can make only a bounded number of moves |
| Server.QuietMeansDone | userspace/vts/src/req_handler.c:281-294 | when no worker can move, the queue is empty, all wait, and each request was dropped or answered exactly once |
| Server.DropsOnlyWhenFull | userspace/vts/src/req_handler.c:160-168 | a step drops a request only if it is a push on a full queue, and then the oldest |
| Server.NothingDropped | userspace/vts/src/req_handler.c:160-168 | in every run nothing has been dropped if and only if no push found the queue full |
| Server.AllAnswered | userspace/vts/src/req_handler.c:281-294 | in such a run, once no worker can move every pushed payload has been answered exactly once |
| Ring.Fifo.constructor | userspace/vts/src/fifo.c:9-18 | an empty ring whose slots are all null |
| Ring.Fifo.Depth | userspace/vts/src/fifo.c:30-33 | the depth formula is the number of messages |
| Ring.Fifo.UpdateDepth | userspace/vts/src/fifo.c:35-39 | max_depth becomes the historical maximum |
| Ring.Fifo.MakeRoom | userspace/vts/src/fifo.c:46-53 | the full branch removes exactly the oldest message |
| Ring.Fifo.Push | userspace/vts/src/fifo.c:41-61 | the ring is a drop-oldest sequence of at most cap - 1; history, counts and peak follow; dead slots are null |
| Ring.Fifo.Pop | userspace/vts/src/fifo.c:63-71 | the oldest message, or none when empty, with history and counts |
| Ring.Fifo.Drain | userspace/vts/src/threads_coords.c:20-24 | terminates with an empty ring after logging all messages in order |
| Ring.Fifo.Free | userspace/vts/src/fifo.c:20-28 | every slot ends up null |
| Lines.AssembledIsOutcome | userspace/vts/src/threads_recv.c:78-86 | for every input the byte loop yields what cutting at newlines and then into blocks describes |
| Lines.SegmentsExact | userspace/vts/src/threads_recv.c:78-79 | the segments an input is cut into hold no newline and give it back with newlines in between |
| Lines.MessagesFit | userspace/vts/src/threads_recv.c:79-81 | no message is empty or longer than the limit |
| Lines.LosslessIff | userspace/vts/src/threads_recv.c:78-86 | exactly the non-empty terminated lines come out if and only if no segment exceeds the limit |
| Lines.DeliveredIff | userspace/vts/src/threads_recv.c:27-32 | the ring receives exactly the non-empty terminated lines if and only if no segment exceeds the limit and no terminated one holds a NUL |
| Lines.Reader.Accept | userspace/vts/src/threads_recv.c:78-86 | one character keeps buffer and emitted lines equal to the assembled input |
| Lines.HandleLine | userspace/vts/src/threads_recv.c:27-32 | a finished line enters the ring as its text up to the first NUL |
| Lines.Feed | userspace/vts/src/threads_recv.c:78-86 | one read appends exactly its characters to the input assembled so far |
| Lines.ReadAll | userspace/vts/src/threads_recv.c:45-86 | any splitting of an input over reads gives the same messages and the same rest, and the ring gets the lines exactly under the condition of `DeliveredIff` |
| RingSteps.QueueRefinement | userspace/vts/src/fifo.c:41-71 | in every interleaving without the full branch, popped then published messages are the pushed ones, and the threads never work on the same slot |
| RingSteps.FullBranch | userspace/vts/src/fifo.c:42-47 | a push takes the full branch exactly when, by the head it loaded, cap - 1 messages are live |
| RingSteps.EmptyBranch | userspace/vts/src/fifo.c:63-66 | a pop reports an empty ring exactly when, by the tail it loaded, all messages had been popped |
| RingSteps.NeverBlocked | userspace/vts/src/fifo.c:41-71 | in every such state each thread can make its next step |
| RingSteps.LostMessage | userspace/vts/src/fifo.c:47-56 | a concrete interleaving with the full branch after which a pushed message is nowhere |
| RingSteps.RingOfOne | userspace/vts/src/fifo.c:5-7 | with one slot every push takes the full branch and leaves the ring empty |
| Backoff.Timer.constructor | userspace/libpm/include/backoff.h:6-9 | defaults replace zero values |
| Backoff.Timer.Next | userspace/libpm/include/backoff.h:10-15 | the k-th call returns the k-th delay, positive and within 32 bits |
| Backoff.DelayClosedForm | userspace/libpm/include/backoff.h:10-15 | delays are init, then min(2^k * init, max) |
| Breaker.FailsCountFailures | userspace/libpm/src/circuit_breaker.c:23-33 | for every history the counter is the number of failures since the last success, expiry or threshold-th failure, and below the threshold |
| Breaker.TripsAtThreshold | userspace/libpm/src/circuit_breaker.c:25-31 | a failure trips exactly when it is the threshold-th since the last reset |
| Breaker.RefusedUntil | userspace/libpm/src/circuit_breaker.c:15-21 | after a trip at T every earlier question than T + half_open_ms is refused and changes nothing, and one from then on is granted |
| Breaker.CarryIsExact | userspace/libpm/src/circuit_breaker.c:27-30 | the nanosecond carry and the millisecond truncation lose nothing |
| Breaker.CircuitBreaker.constructor | userspace/libpm/src/circuit_breaker.c:9-13 | a closed breaker with defaults for zero limits |
| Breaker.CircuitBreaker.Allow | userspace/libpm/src/circuit_breaker.c:15-21 | grants exactly when closed or expired at the time read, and follows the reference |
| Breaker.CircuitBreaker.Trip | userspace/libpm/src/circuit_breaker.c:26-31 | open until the current millisecond plus half_open_ms |
| Breaker.CircuitBreaker.Record | userspace/libpm/src/circuit_breaker.c:23-33 | follows the reference for success, failure and trip |
| ProcIo.Pm.constructor | userspace/libpm/src/procfs_io.c:32-36 | zero statistics, a fresh breaker and no calls |
| ProcIo.Pm.ResetStats | userspace/libpm/src/procfs_io.c:38 | zero statistics, counted from here on |
| ProcIo.Pm.Enter | userspace/libpm/src/procfs_io.c:46 | refused exactly while the breaker is open at the time read, counted once, touching no file; the breaker is asked once |
| ProcIo.Pm.Attempt | userspace/libpm/src/procfs_io.c:50-68 | the exact calls made and the round's end, by the results of open, poll and transfer (what these ends mean is `VisitMeaning`); an opened file is closed last |
| ProcIo.Pm.Settle | userspace/libpm/src/procfs_io.c:55-68 | return code, statistics and what the breaker is told, and when, for every way to end a call |
| ProcIo.Pm.Pause | userspace/libpm/src/procfs_io.c:70-73 | one retry is counted; nothing is slept only if the deadline has passed, otherwise the scheduled delay |
| ProcIo.Pm.Rounds | userspace/libpm/src/procfs_io.c:47-75 | the loop terminates for every outcome script; all rounds but the last ask for a retry, the last decides the end, file operations, retries and sleeps are theirs, and all sleeps but the last fit in the time limit |
| ProcIo.Pm.Work | userspace/libpm/src/procfs_io.c:47-75 | a call let through: return code, statistics and report to the breaker follow from its last round |
| ProcIo.Pm.Perform | userspace/libpm/src/procfs_io.c:45-102 | the whole call on the breaker, the statistics and the files, refused or not |
| ProcIo.Pm.Transact | userspace/libpm/src/procfs_io.c:45-102 | one read or write on books that agree: refused exactly if the breaker is open at the time it asks, and then without a file operation; otherwise success, timeout and error are exactly what the results of its system calls say, and statistics, file operations and breaker report are those of its rounds; sleep schedule, (R-2)*min(init,max) < 1000*timeout_ms for R retries, and a deadline end only after timeout_ms |
| ProcIo.Pm.Accounted | userspace/libpm/src/procfs_io.c:45-102 | since the last reset all calls are accounted for, and the breaker was told once per call neither refused nor stopped by a hard open failure |
| ProcIo.Pm.BreakerExplained | userspace/libpm/src/circuit_breaker.c:15-33 | between calls the counter is the number of failed calls since the last successful one modulo the threshold, and open and open_until follow from the last call that tripped |
| ProcIo.Session | userspace/libpm/src/procfs_io.c:109-120 | any sequence of reads and writes returns what the results of their system calls say, and a call returns PM_AGAIN, without a file operation, exactly if it asks less than half_open_ms after the last trip |
| Calls.VisitMeaning | userspace/libpm/src/procfs_io.c:50-72 | from the results alone: success exactly if opened, ready and transferred, a write with every byte; timeout exactly if the poll expired or the last round was one to repeat; every earlier round was busy, interrupted or left EAGAIN or EINTR |
| Calls.TripsExactly | userspace/libpm/src/circuit_breaker.c:23-32 | in every run a call trips the breaker exactly if it fails other than by a hard open and the failures since the last success are a multiple of the threshold; it is then open until its end plus half_open_ms |
| Calls.RefusedExactly | userspace/libpm/src/circuit_breaker.c:15-21 | in every run a call is refused exactly if it asks before the end of the last tripping call plus half_open_ms |
| Calls.RunExplained | userspace/libpm/src/circuit_breaker.c:15-33 | after every run the breaker's state is the one read off the calls |
| Calls.Accounts | userspace/libpm/src/procfs_io.c:45-102 | for any calls, returns, statistics, uncounted failures and breaker records add up |
| Calls.StatsCount | userspace/libpm/src/procfs_io.c:46-72 | each counter is the number of calls with its return code; of the errors those of open and poll are missing |
| Calls.FilesClosed | userspace/libpm/src/procfs_io.c:50-68 | after any calls every opened file has been closed |
| Calls.CallsDisciplined | userspace/libpm/src/procfs_io.c:50-60 | over any calls a poll only follows a successful open and a transfer only a poll that reported the file ready |
| ProcIo.RepeatOnMissingPath | userspace/libpm/src/procfs_io.c:51 | any number of hard open failures returns an I/O error each and never opens the breaker |
| Sampling.RunInv | kernel/my_driver/src/pm_procfs.c:20-29 | every interleaving of config writes and ticks keeps the invariant |
| Sampling.AtRest | kernel/my_driver/src/pm_core.c:12-18 | between writes: enabled means exactly one tick pending or about to re-arm, disabled means none pending or running; never two pending; interval positive |
| Sampling.ConfigFollowsWrites | kernel/my_driver/src/pm_procfs.c:20-29 | in every run the interval is the last positive one written, or 500, and between writes sampling is on exactly if the last write asked for it |
| Sampling.DisabledIsStill | kernel/my_driver/src/pm_procfs.c:26-29 | after the flag is cleared at most one sample already decided on is taken, and none once the write returned |
| Sampling.OneInFive | kernel/my_driver/src/pm_core.c:12-18 | in any actions of the work item between writes every fifth is a sample |
| Sampling.SamplesKeepComing | kernel/my_driver/src/pm_core.c:12-18 | between writes an enabled driver's work item can always go on, and however it does 5n of its actions take exactly n samples |
| Seqlock.AcceptedPass | kernel/my_driver/src/pm_procfs.c:33-46 | in every interleaving, the last block printed by an accepted pass is the contents between two completed updates, for any number of CPUs, if the lock word did not go round |
| Seqlock.AcceptedIff | kernel/my_driver/src/pm_procfs.c:42 | under the same condition a pass is accepted exactly if the lock word did not move since it began, and otherwise starts over |
| Seqlock.UndisturbedPass | kernel/my_driver/src/pm_procfs.c:36-42 | a pass nobody disturbs ends accepted after one line per CPU with the current contents, also before the first update |
| Seqlock.UpdatesAreComplete | kernel/my_driver/src/pm_cpu.c:7-17 | every completed update gave each CPU a usage below 100 and a time stamp in CPU order, and stamps never go back from one update to a later one |
| Seqlock.WrappedPass | kernel/my_driver/src/pm_cpu.c:7-17 | if it goes exactly once round, a torn pass can be accepted |

## Left out

- Ring.Fifo.constructor: asks for at least two slots, although the source accepts any capacity; `RingSteps.RingOfOne` shows what one slot does, and with none the source writes outside its buffer.
- RingSteps.QueueRefinement: only for runs without the full branch; a run with it need not lose a message, so the converse does not hold.
- Seqlock.AcceptedPass: only for passes during which the lock word does not go round; a wrapped pass need not be torn, so the converse does not hold.
- Rooms.Registry.Create: asks for names shorter than the buffer, which the handler's own buffer guarantees.
- CliProtocol.LegacyRoundTrip: only for payloads that begin with these two fields, without quotes and NUL in them; `FieldCodec.GetStrIsLookup` covers every payload.
- Sockets, epoll, accept, connection lifetime, descriptor reuse and UDP datagrams: input and output plumbing.
- Two workers writing replies to one descriptor at once, and the reply texts themselves.
- The ring's metrics while two threads run, and weak memory orders beyond what acquire and release give.
- Concurrent config writers, module load and unload, and the parsing of the config text.
- The reconnect loop around the requests `room.apply`, `room.delete` and `room.show`, and the fields of `room.apply` after its first key.
- Log rotation, XML and configuration loading, the room store, `pm_parse_kv`, allocation failure, signals, start-up and shutdown of processes.
