# A model of TAlib, verified in Dafny

TAlib is a C++ network library built around an event loop. This project models the parts of
it that keep state and proves what they keep. Every claim is a contract or a lemma that Dafny
checks; nothing is executed.

What is modelled, file by file:

- `LfuSpec`, `LfuBuckets`, `LfuNodes`, `LfuCache`: the cache, a doubly linked list of frequency
  buckets, each with a doubly linked list of keys, and two maps into them. The linked structure
  refines a plain list of cells, and the cells are read off the history of calls alone: a key's
  count is 1 plus its hits since it was stored, and the victim is the least used key, the least
  recently touched one among equals.
- `EventLoopRuns`, `EventLoop`: the cross-thread queue of functors, with the push and the eventfd
  write as separate steps of any number of threads. No interleaving loses a wakeup.
- `Timers`, `TimerQueue`: two ordered indexes over the same timers, batch expiry, callbacks that
  add and cancel timers, reinsertion, and arming of the timerfd. The memory of a deleted timer may
  be used again for a new one. Times are integer microseconds.
- `AsyncLoggingRuns`, `LogBuffers`, `PtrVectors`, `AsyncLogging`: the hand-over of log buffers
  between the appending threads and the writing thread. Each method is a stretch that runs under the
  lock or that touches only the writing thread's own state, so any order of calls is an interleaving,
  and makes a step of the runs that the theorems are about.
- `Decimal`, `LogStreams`: decimal and hexadecimal formatting in place.
- `Resp`, `RedisCommand`: the printer, the parser and the retry loop of the Redis client, over a
  buffer that earlier replies have left bytes in.
- `Buffers`, `HttpMessages`, `HttpContexts`, `HttpRoundTrip`, `HttpAnswers`, `HttpServers`,
  `WebBenches`: the byte buffer, the incremental HTTP request parser on it, the server that answers
  some requests and closes after some answers, and the request builder of webbench that the parser
  inverts.
- `TcpConnections`: a connection's output stream and the interest bits of its channel.
- `TcpServerRuns`, `TcpServers`: the life of connections across the base loop and the I/O loops.
- `ConnPhases`, `Optional`: the two types they share, with the moves between a connection's phases.

Where the source works in place there is a class whose methods follow the source's branches, and
each method's `ensures` equates the new state with a function of the old one or states outright
what the new state is. The lemmas are about those functions.

Some things one would expect of the code do not hold. The code is modelled as it is, and the exact
condition is proved:

- storing a key that is already cached leaves it twice, unless it is the key being given up: the
  linked cache is as it should be after a store if and only if nothing is stored, the key is new, or
  it is the victim (`LfuCache.LFUCache.Set`, `LfuSpec.SetKeepsKeysApart`);
- for a functor queued by the loop thread before `loop()` no wakeup comes unless some other thread
  has written, or still owes a write to, the eventfd (`EventLoopRuns.EarlyQueueHangs`);
- cancelling a timer that is still pending takes it out of one index only, and the cancel meets the
  assertion at the end of `cancelInLoop` exactly when the timer is not pending
  (`TimerQueue.TimerQueue.CancelInLoop`, `Cancel`); so a batch of callbacks goes well exactly when
  none of them cancels a live timer that was not due, or one added since
  (`TimerQueue.TimerQueue.HandleRead`, `TimerQueue.PlanGoesWell`);
- a log record is kept exactly when it is shorter than a buffer (`AsyncLogging.AsyncLogging.Append`),
  and a writer that has left its loop has written all of them if and only if none was appended since
  it last collected (`AsyncLoggingRuns.StoppedLeavesTail`, `LosesRecord` for a run that loses one);
- a Redis array that arrives in pieces is parsed again from its start with each piece, and a piece
  that ends between two nodes sends the parser one past its terminator, into what an earlier reply
  has left in the buffer. While no piece but the last reaches the end of the first string, the
  result is the array if and only if it was not a piece that ended with the header and had a
  harmful negative number behind it; when some piece does reach it, and no negative number lies
  behind such an end, the result is never the array, as the strings that had come are there again
  (`Resp.ArrayResultExact`; `Resp.StaleNumber` and `Resp.TwoPieces` for inputs that fail, and
  `Resp.RightByChance` for why nothing exact is said of the one case left, where a piece reaches the
  first string's end and a negative number lies behind some node);
- a request webbench builds is accepted by the server's parser exactly when it is a GET or a HEAD
  with a version (`WebBenches.BuiltIsRead`);
- of several requests that arrive in one read only the first is answered
  (`HttpAnswers.OnlyTheFirst`), and nothing is answered after an answer that closes
  (`HttpAnswers.SentUpToClosing`, for any bytes). Of any number of requests in any pieces all are
  answered if and only if each is there, whole, at as many reads as there are requests from it on,
  and none but the last asks for the close, or has it set by the callback
  (`HttpAnswers.AllAnswered`; `ClosedAfterFirst` for an input that fails). Of those webbench builds
  only the first is ever answered (`WebBenches.OnlyOneIsAnswered`), and of any at all by a server
  that is left its own callback (`HttpAnswers.DefaultAnswersOne`);
- webbench's arrays have no room for a host of 64 characters or more and a port of 10 or more
  (`WebBenches.WebBench.BuildRequest`);
- testing the write interest clears the read interest, so a connection is asked about reading
  exactly until a message first has to wait (`TcpConnections.TcpConnection.Send`,
  `TcpConnections.DeafAfterWaiting`), and `shutdown` shuts the socket only if nothing waits at that
  moment (`TcpConnections.TcpConnection.Shutdown`).

The kernel, clocks and other threads appear as parameters (what `write`, `readv`, `recv` answer, the
reading of a clock, the loop a pool picks) or as steps that may happen.

## Model

src/Http/HttpServer.cpp is not UTF-8 text; rows about its functions cite their declarations and name
the lines of the bodies.

| member | source | states |
|---|---|---|
| LfuSpec.ReplayMatchesHistory | src/cache/LFUCache.cpp:100-138 | After any legal history, each cached key holds the value last stored under it, its count is 1 plus its hits since then, keys are unique, the order of cells is the order of last touch, and there are no more than capacity of them |
| LfuSpec.VictimIsLeastUsed | src/cache/LFUCache.cpp:120-131 | The key a full cache gives up is used less than every other cached key, or as often and touched longer ago, by the history alone |
| LfuSpec.SetReplacesVictim | src/cache/LFUCache.cpp:115-138 | A store on a full cache changes the set of keys by exactly the victim and the new key |
| LfuSpec.SetKeepsKeysApart | src/cache/LFUCache.cpp:133-137 | A store keeps the keys unique if and only if capacity is 0, the key is new, or it is the victim |
| LfuBuckets.FreshBucket | src/cache/LFUCache.cpp:76-86 | A new empty bucket put after its smaller neighbour keeps the buckets increasing and grouping the cells |
| LfuBuckets.RemoveCell | src/cache/LFUCache.cpp:91-92 | Taking one key out of its bucket is taking one cell out of the touch order |
| LfuBuckets.AddCell | src/cache/LFUCache.cpp:95 | Putting a key at the front of a bucket makes it the most recently touched cell with that count |
| LfuBuckets.DropBucket | src/cache/LFUCache.cpp:96-97 | Dropping an empty bucket still groups every cell |
| LfuBuckets.LastOfFirstIsVictim | src/cache/LFUCache.cpp:121-122 | The last key of the first bucket is the least used, least recently touched cell |
| LfuNodes.KeyList.Add | src/cache/LFUCache.cpp:28-38 | The node becomes first after the head; the list stays linked both ways with the right last node |
| LfuNodes.KeyList.Del | src/cache/LFUCache.cpp:40-46 | The node leaves the list, which stays linked both ways, with the last node corrected |
| LfuNodes.LinkAfter | src/cache/LFUCache.cpp:80-86 | A new bucket node with the next count is linked in after a given one; the chain stays linked both ways |
| LfuNodes.Unlink | src/cache/LFUCache.cpp:140-147 | A bucket node is unlinked; the chain stays linked both ways |
| LfuCache.LFUCache.AddFreq | src/cache/LFUCache.cpp:74-98 | The key moves to the bucket of the next count, made if missing; the bucket left empty goes; maps, both list levels and the cells agree again, and the cells change by exactly one touch |
| LfuCache.LFUCache.NextBucket | src/cache/LFUCache.cpp:75-89 | The bucket after the given one now has the next count, and the key is entered for it |
| LfuCache.LFUCache.Get | src/cache/LFUCache.cpp:100-113 | A hit exactly when the key is among the cells; the value is appended to the output; the new cells are those of the replayed history |
| LfuCache.LFUCache.Set | src/cache/LFUCache.cpp:115-138 | For any key the new cells are those of the plain cache after the same store, the victim included; lists, maps and cells agree and keys are unique after it if and only if capacity is 0, the key is new, or it is the victim; otherwise both maps lead to the new node, the old one stays listed, and there is one more cell than keys |
| LfuCache.LFUCache.Evict | src/cache/LFUCache.cpp:120-131 | What leaves lists and maps is the victim of the plain cache |
| LfuCache.LFUCache.Insert | src/cache/LFUCache.cpp:133-137 | The key enters with count 1 as the most recently touched; a node it already had stays listed |
| LfuCache.Locate | src/cache/LFUCache.cpp:104-107 | Each cell's key is in both maps, and they lead to its node in the list of the bucket with its count |
| LfuCache.LFUCache.constructor | src/cache/LFUCache.cpp:56-62 | The empty cache meets the invariant |
| EventLoopRuns.StepKeepsInv | src/Reactor/EventLoop.cpp:59-146 | Every step of every thread keeps the queue's invariant: pushed functors are those called, the rest of the batch and the pending ones, and pending work has a wakeup |
| EventLoopRuns.RunKeepsInv | src/Reactor/EventLoop.cpp:59-146 | So does every run |
| EventLoopRuns.NoLostWakeup | src/Reactor/EventLoop.cpp:101-119 | In no interleaving is the loop blocked in poll with pending functors or a request to quit while nobody has written or owes the eventfd |
| EventLoopRuns.EarlyQueueHangs | src/Reactor/EventLoop.cpp:108-110 | A functor queued by the loop thread outside loop() makes the first poll hang if and only if the eventfd is zero and no thread owes a write |
| EventLoopRuns.CalledInOrder | src/Reactor/EventLoop.cpp:131-146 | Functors are called in push order, each at most once, and those queued before the last poll have been called when the loop is back at its test |
| EventLoopRuns.OneTurnDrains | src/Reactor/EventLoop.cpp:67-77 | From a poll with a readable eventfd one turn of the loop calls everything queued and leaves the eventfd at zero |
| EventLoopRuns.PollingIsNotForever | src/Reactor/EventLoop.cpp:101-129 | A poll with pending functors needs one owed write, or none if the eventfd is readable, to end with all of them called |
| EventLoopRuns.QuitIsHeard | src/Reactor/EventLoop.cpp:67-80 | After a request to quit by any thread, and until loop() is called again, poll is not entered any more and the next test of the flag leads out of loop() |
| EventLoopRuns.QuitEndsLoop | src/Reactor/EventLoop.cpp:158-167 | A request that finds the loop in poll ends it: after one owed write, or none, the turn of the loop calls all functors and leads out |
| EventLoopRuns.RunsUntilAsked | src/Reactor/EventLoop.cpp:59-81 | Until somebody asks, loop() is not left and each test leads into poll; what was asked before it was called counts for nothing |
| EventLoop.EventLoop.QueueInLoop | src/Reactor/EventLoop.cpp:101-111 | The push, under the lock, is the queueing step of the caller; a wakeup is owed by other threads and while functors are being called |
| EventLoop.EventLoop.Wakeup | src/Reactor/EventLoop.cpp:113-119 | The write that was owed |
| EventLoop.EventLoop.HandleRead | src/Reactor/EventLoop.cpp:121-129 | Reading the eventfd sets it to zero |
| EventLoop.EventLoop.DoPendingSwap | src/Reactor/EventLoop.cpp:133-139 | The swap under the lock takes all pending functors as the batch |
| EventLoop.EventLoop.DoPendingCall | src/Reactor/EventLoop.cpp:141-143 | The next functor of the batch is called |
| EventLoop.EventLoop.LoopTest | src/Reactor/EventLoop.cpp:67 | The test of the quit flag: on into poll or out of loop() |
| EventLoop.EventLoop.Quit | src/Reactor/EventLoop.cpp:158-167 | The flag is set, whoever asks, as in the runs; another thread then owes a wakeup |
| Timers.Timer.constructor | src/Reactor/Timer.h:12-20 | A timer repeats exactly when its interval is positive |
| Timers.Timer.Restart | src/Reactor/Timer.cpp:7-18 | A repeating timer is due its interval later, in microseconds with the fraction dropped; another has no valid expiration |
| TimerQueue.HowMuchTimeFromNow | src/Reactor/TimerQueue.cpp:26-37 | Seconds and nanoseconds that add up to the time left, or to 100 microseconds if that is more |
| TimerQueue.TimerQueue.ResetTimerfd | src/Reactor/TimerQueue.cpp:48-60 | The timerfd is armed for the expiration or for 100 microseconds from now |
| TimerQueue.TimerQueue.Insert | src/Reactor/TimerQueue.cpp:141-167 | Both indexes gain exactly the timer, keyed by its expiration; the answer is whether it is earlier than all others |
| TimerQueue.TimerQueue.Add | src/Reactor/TimerQueue.cpp:107-120 | A new timer with a sequence number never used before is in both indexes, and the timerfd is armed in time if it was |
| TimerQueue.TimerQueue.AddTimer | src/Reactor/TimerQueue.cpp:107-120 | Outside the handler this keeps the whole invariant |
| TimerQueue.TimerQueue.CancelInLoop | src/Reactor/TimerQueue.cpp:126-139 | It meets its last assertion if and only if the timer is not pending; a pending one is deleted and taken out of one index only; during callbacks the id is remembered |
| TimerQueue.TimerQueue.Cancel | src/Reactor/TimerQueue.cpp:122-124 | Outside a batch a cancel changes nothing, or leaves an index that points to deleted memory |
| TimerQueue.TimerQueue.TakeDue | src/Reactor/TimerQueue.cpp:87-92 | The batch is the timers due, in order of expiration, and they leave the first index |
| TimerQueue.TimerQueue.GetExpired | src/Reactor/TimerQueue.cpp:86-105 | Both indexes lose exactly the due timers and agree again; none left is due |
| TimerQueue.TimerQueue.NextCallback | src/Reactor/TimerQueue.cpp:181-184 | One call is logged; what the callback adds and cancels is what its actions say, action by action, and it goes wrong exactly when one of them cancels a pending timer |
| TimerQueue.TimerQueue.RunCallbacks | src/Reactor/TimerQueue.cpp:178-186 | Every timer of the batch is called once, in order; the pending ids, the ids cancelled and the timers added are those of all the actions one after the other, and it goes wrong exactly when these cancel a pending timer |
| TimerQueue.TimerQueue.Reinsert | src/Reactor/TimerQueue.cpp:197-199 | A repeating timer is live again, due its interval in whole microseconds after now |
| TimerQueue.TimerQueue.Delete | src/Reactor/TimerQueue.cpp:200-202 | A timer is deleted that was not deleted before and is in neither index |
| TimerQueue.TimerQueue.Reset | src/Reactor/TimerQueue.cpp:191-212 | Each timer of the batch is live again if it repeats and was not cancelled, due its interval in whole microseconds after now, and deleted if not; the record of the callbacks is kept, and the timerfd is armed in time for all |
| TimerQueue.TimerQueue.HandleRead | src/Reactor/TimerQueue.cpp:169-189 | The handler as a whole calls exactly the due timers, in order. It goes wrong if and only if a callback cancels a pending timer; otherwise the invariant is kept and the timers live are exactly those not due, unchanged, those the callbacks added, with the times asked for, and those due that repeat and were not cancelled, due again their interval in whole microseconds after now; the others are deleted |
| TimerQueue.CallbacksApart | src/Reactor/TimerQueue.cpp:169-212 | Two callbacks of one repeating timer are its interval apart, in whole microseconds |
| TimerQueue.PlanGoesWell | src/Reactor/TimerQueue.cpp:126-139 | The actions of a batch go well if and only if no cancel among them names an id that was pending at the start or one given to a timer added before it |
| TimerQueue.PlanCancels | src/Reactor/TimerQueue.cpp:135-137 | The ids cancelled in a batch are exactly those some cancel names that had been given out by then |
| TimerQueue.PlanPending | src/Reactor/TimerQueue.cpp:107-120 | The ids pending after a batch that goes well are those pending before it and those it added |
| TimerQueue.PlanAdds | src/Reactor/TimerQueue.cpp:107-120 | The ids added are the next free ones, one for each addTimer |
| TimerQueue.PlanAddsAt | src/Reactor/TimerQueue.cpp:107-120 | The n-th addTimer gets the n-th of them, with its time and interval |
| TimerQueue.AccountedDelete | src/Reactor/TimerQueue.cpp:200-202 | Deleting a timer in the queue's hands keeps every timer ever made either owned or deleted, and no sequence number deleted twice |
| LogBuffers.LogBuffer.Append | src/Logger/LogStream.h:21-27 | A record goes in whole if it fits with a byte to spare, and otherwise not at all |
| PtrVectors.PtrVector.PopBack | src/Logger/ptr_vector.h:51-56 | The last buffer is taken out, owned by the caller |
| PtrVectors.PtrVector.Resize | src/Logger/ptr_vector.h:75-93 | A shorter vector deletes the buffers beyond its new size, a longer one gains empty ones |
| AsyncLogging.AsyncLogging.constructor | src/Logger/AsyncLogging.cpp:48-54 | The four first buffers are owned once each and all is accounted for |
| AsyncLogging.AsyncLogging.Append | src/Logger/AsyncLogging.cpp:30-46 | Is the appending step of the runs: a record is kept exactly when it is shorter than a buffer, at the end of the stream; every buffer stays owned once or deleted |
| AsyncLogging.AsyncLogging.Rotate | src/Logger/AsyncLogging.cpp:35-41 | The full buffer joins those waiting; the spare or a new one becomes current, empty; the stream is unchanged and deleted buffers stay deleted |
| AsyncLogging.AsyncLogging.Collect | src/Logger/AsyncLogging.cpp:58-68 | The batch is all waiting buffers and then the current one; the first spare becomes current, empty, and the next one is filled up; the stream is unchanged and deleted buffers stay deleted |
| AsyncLogging.AsyncLogging.WriteNext | src/Logger/AsyncLogging.cpp:72-74 | The next buffer of the batch is written out, in the order of the batch |
| AsyncLogging.AsyncLogging.Recycle | src/Logger/AsyncLogging.cpp:76-93 | Both pops find a buffer; the spares are empty again; what is deleted was owned once, and stays deleted; the stream is unchanged |
| AsyncLogging.OwnedRecycle | src/Logger/AsyncLogging.cpp:76-93 | After recycling each buffer is still in exactly one place or deleted |
| AsyncLogging.OwnedCollect | src/Logger/AsyncLogging.cpp:58-68 | So it is after collecting |
| AsyncLogging.OwnedRotate | src/Logger/AsyncLogging.cpp:35-41 | And after a rotation |
| AsyncLogging.AsyncLogging.StoppedLeavesTail | src/Logger/AsyncLogging.cpp:56-97 | Once the writer has left its loop, the output is exactly what had been appended when it last collected, and so is everything if and only if nothing was appended since |
| AsyncLoggingRuns.StepKeepsInv | src/Logger/AsyncLogging.cpp:30-97 | Every stretch of either thread keeps the stream: what was appended is the output, the rest of the batch, what waits and the current buffer |
| AsyncLoggingRuns.RunKeepsInv | src/Logger/AsyncLogging.cpp:30-97 | So does every run |
| AsyncLoggingRuns.StreamIsKept | src/Logger/AsyncLogging.cpp:30-97 | However the threads interleave, the records kept, in the order of their appends, are what has been written, what is being written, what waits and what is being filled: none is lost, doubled or moved |
| AsyncLoggingRuns.StoppedLeavesTail | src/Logger/AsyncLogging.cpp:56-97 | After any run that ends the writer, the records kept are the output and then those kept since the last collection; all are written if and only if there are none of these |
| AsyncLoggingRuns.StoppedForGood | src/Logger/AsyncLogging.cpp:56-97 | Nothing that happens later adds to the output |
| AsyncLoggingRuns.LosesRecord | src/Logger/AsyncLogging.cpp:56 | One record and a stop before the writer looks: nothing is written |
| LogStreams.LogStream.FormatInteger | src/Logger/LogStream.cpp:164-171 | The canonical decimal text is appended if 32 bytes are free, and nothing otherwise |
| LogStreams.LogStream.FormatAddress | src/Logger/LogStream.cpp:86-97 | Likewise for 0x and the hexadecimal text |
| LogStreams.Convert | src/Logger/LogStream.cpp:143-162 | For every signed or unsigned 64-bit value the array holds its text and a terminator, 21 characters at most, and is otherwise unchanged |
| LogStreams.PutDigits | src/Logger/LogStream.cpp:145-152 | The digits, lowest first, are the canonical ones reversed |
| LogStreams.ConvertHex | src/Logger/LogStream.cpp:68-84 | The same for hexadecimal, 17 characters at most |
| LogStreams.Reverse | src/Logger/LogStream.cpp:159 | The part is reversed in place and nothing else changes |
| LogStreams.ReadBack | src/Logger/LogStream.cpp:143-162 | The text of any integer reads back as that integer |
| LogStreams.ReadHexBack | src/Logger/LogStream.cpp:66-84 | So does the hexadecimal text |
| LogStreams.OnlyText | src/Logger/LogStream.cpp:143-162 | Canonical is digits without a zero in front but that of 0 itself, with a minus sign exactly for a negative number; no other text of that form reads back as the number |
| LogStreams.TextIsCanonical | src/Logger/LogStream.cpp:143-162 | The text of every integer has that form, and the sign exactly when it is negative |
| LogStreams.OnlyHex | src/Logger/LogStream.cpp:66-84 | Likewise for hexadecimal, in capital letters |
| LogStreams.TextFits | src/Logger/LogStream.cpp:164-168 | No 64-bit value takes more than 20 characters |
| LogStreams.TableDigit | src/Logger/LogStream.cpp:139-151 | The table is indexed within 0 to 18 and has the digit of every remainder, negative ones included |
| Resp.RoundTrip | src/Redis/RedisConnect.h:299-408 | For every list of strings, parsing what toString prints gives its length and the list, whatever is left in the buffer behind it |
| Resp.ArrayOfPrefix | src/Redis/RedisConnect.h:329-374 | Every proper prefix of a printed array is incomplete, and what it has pushed is exactly the strings that are all there, unless it ends between two nodes with a negative number behind it |
| Resp.NodeOfPrefix | src/Redis/RedisConnect.h:356-374 | A node is incomplete until its last byte is there, and then is its string and what follows; of a node of which nothing is there the bytes past the terminator decide |
| Resp.HeaderAlone | src/Redis/RedisConnect.h:335-374 | What parsing a header alone gives, for whatever lies behind it: incomplete, or done with no strings, or a step back before the array |
| Resp.ReplyOfPrefix | src/Redis/RedisConnect.h:299-327 | Every proper prefix of a single reply is incomplete and leaves no trace; the whole is parsed as what it says |
| Resp.SingleReplies | src/Redis/RedisConnect.h:299-327 | The codes, status and text of a good, a failed, a numeric and an empty reply, letter by letter |
| Resp.NegativeLength | src/Redis/RedisConnect.h:300-313 | A length of -1 means that there is nothing, and any other below zero passes for a good reply |
| Resp.UnknownMark | src/Redis/RedisConnect.h:315-354 | A line with none of the five marks in front is malformed |
| Resp.AsSent | src/Redis/RedisConnect.h:397-408 | A request of two strings, letter by letter |
| Resp.AnyChunks | src/Redis/RedisConnect.h:428-444 | For such a reply the retry loop ends the same for every way it comes in pieces |
| Resp.DoesNotFit | src/Redis/RedisConnect.h:426-449 | A single reply that is longer than the buffer ends in PARAMERR, in whatever pieces it comes |
| Resp.TimesOut | src/Redis/RedisConnect.h:431-434 | While nothing comes the loop gives up if and only if it has waited longer than the timeout |
| Resp.TextEndsLoop | src/Redis/RedisConnect.h:428-444 | A text is left only by a reply that ends the loop with OK or FAIL |
| Resp.ArrayInChunks | src/Redis/RedisConnect.h:428-444 | For an array the loop ends when it is whole, with the strings complete at the end of each piece before the last in front, if no piece that ends between two nodes has a negative number behind it |
| Resp.ArrayResultExact | src/Redis/RedisConnect.h:335-374 | The result is the list if and only if no piece but the last reaches the end of the first string and no header ending a piece has a harmful negative number behind it; said of all arrivals of which the former holds or no end between two nodes has a negative number behind it |
| Resp.LateArray | src/Redis/RedisConnect.h:335-374 | While no piece but the last reaches the end of the first string: the strings once, or, behind a harmful number, none and the parse over |
| Resp.StaleNumber | src/Redis/RedisConnect.h:335-374 | After an earlier reply "+aaaa-1" an array of one string whose header comes alone has the result 0 and no strings |
| Resp.RightByChance | src/Redis/RedisConnect.h:335-374 | Three equal strings in three pieces come out as sent although the first came twice, a negative number behind the second having ended the loop early |
| Resp.TwoPieces | src/Redis/RedisConnect.h:371 | Two strings cut within the second give the first one twice, whatever the buffer held |
| Decimal.ReadPrinted | src/Redis/RedisConnect.h:362 | Printed digits are read back as the number |
| Decimal.AtoiPrinted | src/Redis/RedisConnect.h:362 | atoi reads back a printed number whatever follows but a digit |
| RedisCommand.Command.ToString | src/Redis/RedisConnect.h:397-408 | The loop prints the request as one array |
| RedisCommand.Command.ParseNode | src/Redis/RedisConnect.h:356-374 | Where a node ends, and the string pushed, is what the specification says, the search past the terminator included |
| RedisCommand.Command.Parse | src/Redis/RedisConnect.h:299-355 | Code, strings, status and text are those of the specification; an array header empties the request |
| RedisCommand.Command.ParseArray | src/Redis/RedisConnect.h:335-351 | The loop over the nodes, from the first on |
| RedisCommand.Command.GetResult | src/Redis/RedisConnect.h:415-481 | The request written is the printed one, and the outcome, strings, status and text are those of the specified retry loop on a buffer with any contents; the failures that have no text of their own get the fixed ones, by name |
| Buffers.Buffer.Append | src/common/Buffer.h:138-147 | The readable bytes are the old ones and the new ones, whether it grows, compacts or neither |
| Buffers.Buffer.MakeSpace | src/common/Buffer.h:115-131 | Growing and the overlapping copy to the front keep the readable bytes and make room |
| Buffers.Buffer.Retrieve | src/common/Buffer.h:81-92 | Drops a prefix of the readable bytes; the indexes go back to the front when none are left |
| Buffers.Buffer.RetrieveUntil | src/common/Buffer.h:94-99 | Drops the readable bytes up to a position |
| Buffers.Buffer.ReadFd | src/common/Buffer.cpp:16-49 | The bytes read are appended, split between the writable space and the extra buffer; an error changes nothing |
| Buffers.Search | src/common/Buffer.h:65-70 | An end of line that is found is within the bytes |
| HttpContexts.HttpRequest.SetMethod | src/Http/HttpRequest.h:37-54 | Exactly five names are known, each for its own method |
| HttpContexts.HttpRequest.MethodString | src/Http/HttpRequest.h:58-80 | The name printed for a known method is the one it is read from |
| HttpMessages.MethodsByName | src/Http/HttpRequest.h:37-80 | A string is read as a method if and only if it is its printed name |
| HttpMessages.VersionsByName | src/Http/HttpContext.cpp:30-42 | Two version texts are known, each for its own version |
| HttpMessages.TrimBetween | src/Http/HttpRequest.h:98-109 | What is kept of a value is what lies between the white space at both ends |
| HttpMessages.TrimCuts | src/Http/HttpRequest.h:98-109 | Every string is white space, a kept part that neither starts nor ends with any, and white space |
| HttpMessages.HeaderKept | src/Http/HttpRequest.h:98-109 | A field is kept under what stands before its first colon, trimmed, and the others stay |
| HttpContexts.HttpRequest.AddHeader | src/Http/HttpRequest.h:98-109 | The field's value is trimmed of white space on both sides and replaces an earlier one |
| HttpContexts.HttpContext.ProcessRequestLine | src/Http/HttpContext.cpp:15-44 | Accepts and fills in the request as specified, what was set before a fault included |
| HttpContexts.HttpContext.ParseRequest | src/Http/HttpContext.cpp:47-86 | On a Buffer: answer, state, request and bytes left are those of the specified parser |
| HttpMessages.InPieces | src/Http/HttpContext.cpp:47-86 | Parsing some bytes and then more is parsing them at once while there is no answer, and changes only what is left after one; ends of line may straddle the cut; the time kept is that of the call that completed the request line |
| HttpMessages.AnyPieces | src/Http/HttpContext.cpp:47-86 | So it is for any number of pieces |
| HttpMessages.SearchMore | src/common/Buffer.h:65-70 | An end of line stays found when more bytes come |
| HttpRoundTrip.FirstLineParse | src/Http/HttpContext.cpp:15-44 | A printed request line, of any method the parser knows or of two it does not, is taken apart as it was put together, or refused exactly when method or version is not one it knows |
| HttpRoundTrip.ThreeParts | src/Http/HttpContext.cpp:15-44 | What a line of three parts sets in the request, accepted or refused at its method or its version |
| HttpRoundTrip.TwoParts | src/Http/HttpContext.cpp:15-23 | Without a second space only the method is set |
| HttpRoundTrip.OnePart | src/Http/HttpContext.cpp:15-19 | Without a first, nothing |
| HttpRoundTrip.LineEndsFields | src/Http/HttpContext.cpp:65-80 | Any line without a colon ends the fields |
| HttpRoundTrip.FieldsParse | src/Http/HttpContext.cpp:65-80 | Printed fields are all read, up to the empty line and no further |
| HttpRoundTrip.PrintedOrder | src/Http/HttpContext.cpp:47-86 | A printed request is read back whole with the rest untouched, or refused with nothing consumed |
| HttpRoundTrip.AsWritten | webbench/webbench.c:242-337 | The printed form of a request with a field, letter by letter |
| HttpRoundTrip.LinesAsWritten | webbench/webbench.c:242-316 | And the request lines of the other methods |
| HttpRoundTrip.TargetKept | src/Http/HttpContext.cpp:23-29 | Path and query together are the target, cut at its first question mark |
| HttpRoundTrip.Pipelined | src/Http/HttpContext.cpp:47-86 | Any number of printed requests are read back in order, with a reset after each and nothing left |
| HttpAnswers.OnlyTheFirst | src/Http/HttpServer.h:41-43 | Only the first of several requests in one read is answered; the others wait in the buffer (bodies at src/Http/HttpServer.cpp:50-64) |
| HttpAnswers.OnePerRead | src/Http/HttpServer.h:41-43 | For any bytes there are never more replies than reads (bodies at src/Http/HttpServer.cpp:50-64) |
| HttpAnswers.SentUpToClosing | src/Http/HttpServer.h:41-44 | For any bytes in any pieces, of the replies due, one for each request handed to the callback and one for each refusal, those are sent that come up to the first after which the connection is shut down (bodies at src/Http/HttpServer.cpp:50-80) |
| HttpAnswers.RefusalIsLast | src/Http/HttpServer.h:41-43 | After a refusal the connection is not up and nothing more is sent, whatever comes (bodies at src/Http/HttpServer.cpp:55-58) |
| HttpAnswers.HandedExactly | src/Http/HttpServer.h:41-43 | Of printed requests in any pieces those handed to the callback are the first so many, in order and as they were sent; how many is counted from the lengths of requests and pieces alone (bodies at src/Http/HttpServer.cpp:50-64) |
| HttpAnswers.AnsweredExactly | src/Http/HttpServer.h:41-44 | The answered ones are the first of those handed on, up to the first whose answer closes (bodies at src/Http/HttpServer.cpp:50-80) |
| HttpAnswers.AllServed | src/Http/HttpServer.h:41-43 | All requests are handed on if and only if each is there, whole, at as many reads as there are requests from it on (bodies at src/Http/HttpServer.cpp:50-64) |
| HttpAnswers.AllAnswered | src/Http/HttpServer.h:41-44 | All are answered if and only if each is there, whole, at as many reads as there are requests from it on, and no answer but the last closes (bodies at src/Http/HttpServer.cpp:50-80) |
| HttpAnswers.ClosesAsPrinted | src/Http/HttpServer.h:44 | A request asks for the close if its last Connection field says close, or it is HTTP/1.0 and that does not say Keep-Alive, and not otherwise (bodies at src/Http/HttpServer.cpp:69-71) |
| HttpAnswers.FirstCloses | src/Http/HttpServer.h:44 | A first request whose answer closes is the only one ever answered, in whatever pieces the bytes come (bodies at src/Http/HttpServer.cpp:66-80) |
| HttpAnswers.DefaultAnswersOne | src/Http/HttpServer.h:22-31 | With the callback a server has at first that is so for all requests (bodies at src/Http/HttpServer.cpp:20-24) |
| HttpAnswers.ClosedAfterFirst | src/Http/HttpServer.h:44 | Two HTTP/1.0 requests, each whole in its own read: both are handed on and one is answered (bodies at src/Http/HttpServer.cpp:69-79) |
| HttpServers.HttpServer.OnMessage | src/Http/HttpServer.h:41-43 | On a TcpConnection, its buffer and an HttpContext: phase, parser and bytes left are those of the specified server, and the texts of its replies join the stream that is sent unless the socket fails at once (bodies at src/Http/HttpServer.cpp:50-64) |
| HttpServers.HttpServer.OnRequest | src/Http/HttpServer.h:44 | The answer joins the stream if the connection is up, which is then disconnecting exactly when the answer closes (bodies at src/Http/HttpServer.cpp:66-80) |
| WebBenches.WebBench.BuildRequest | webbench/webbench.c:227-339 | Which URLs are refused and why, in the order of the checks, and which overrun the arrays for host and port; otherwise the request is the printed form of what the options ask, with version, host and port as they follow; the version asked for is raised only when the options do not allow it |
| WebBenches.WebBench.FindHost | webbench/webbench.c:287-303 | Unless one of them overruns its array, host and port are the two parts of the authority, the port 80 if zero |
| WebBenches.RequestFits | webbench/webbench.c:227-339 | Where host and port fit their arrays, the request fits its own |
| WebBenches.PartsOfUrl | webbench/webbench.c:275-306 | A URL is its scheme, the delimiter, the authority and the path |
| WebBenches.PartsOfAuthority | webbench/webbench.c:287-303 | The authority is the host and, after a colon, the port |
| WebBenches.MinorIsLeast | webbench/webbench.c:237-240 | The version used is the least that HEAD, OPTIONS, TRACE and a reload through a proxy allow and that is not below the one asked for |
| WebBenches.FieldsAre | webbench/webbench.c:318-334 | Which fields there are, by the options |
| WebBenches.TakenAre | webbench/webbench.c:254-303 | Which URLs are refused for want of a delimiter, for their length or for their scheme, and which are taken |
| WebBenches.SchemeIs | webbench/webbench.c:265-272 | The scheme is http in letters of either case |
| WebBenches.BuiltIsRead | webbench/webbench.c:227-339 | A built request is read back with its method, version, target and exactly its headers, if and only if it is a GET or HEAD with a version |
| WebBenches.ManyAreRead | webbench/webbench.c:227-339 | Any number of them in a row are read back in order, leaving nothing |
| WebBenches.BuiltCloses | webbench/webbench.c:308-337 | Every request built that the server reads asks for the close |
| WebBenches.OnlyOneIsAnswered | webbench/webbench.c:227-339 | Of any number of them on one connection, in any pieces, the first is answered and no other, unless the callback takes the close back |
| TcpConnections.Channel.IsWriting | src/Reactor/Channel.h:53 | Tells whether there is write interest and keeps nothing else |
| TcpConnections.TcpConnection.Send | src/Tcp/TcpConnection.cpp:65-73 | The message joins the stream unless the connection is not up or the socket fails at once; what the socket took and what waits are exactly the stream |
| TcpConnections.TcpConnection.SendInLoop | src/Tcp/TcpConnection.cpp:87-135 | The same for every answer of the socket, also while the connection is disconnecting; write interest exactly while something waits |
| TcpConnections.TcpConnection.HandleWrite | src/Tcp/TcpConnection.cpp:168-192 | What the socket takes moves from what waits to what was accepted; the interest ends when nothing waits |
| TcpConnections.TcpConnection.HandleRead | src/Tcp/TcpConnection.cpp:151-166 | Bytes are added to the input; none means the connection is closed |
| TcpConnections.TcpConnection.Shutdown | src/Tcp/TcpConnection.cpp:137-149 | The socket's write side is shut exactly when nothing waits, so never before all that was sent is accepted; the phase moves as in the runs of the server |
| TcpConnections.TcpConnection.HandleClose | src/Tcp/TcpConnection.cpp:200-214 | Disconnected, with no interest left: the closing move of the runs |
| TcpConnections.TcpConnection.ForceClose | src/Tcp/TcpConnection.cpp:232-239 | An open connection is disconnecting, no longer connected, as in the runs, and its functor is to be queued |
| TcpConnections.TcpConnection.ForceCloseInLoop | src/Tcp/TcpConnection.cpp:241-247 | Closes a connection that is still open, and does nothing to another |
| TcpConnections.LostAfterForceClose | src/Tcp/TcpConnection.cpp:65-73 | A message sent after forceClose() is dropped, even before the close is made |
| TcpConnections.TcpConnection.ConnectDestroyed | src/Tcp/TcpConnection.cpp:216-230 | Disconnected, as in the runs, and the poller may forget the channel |
| TcpConnections.DeafAfterWaiting | src/Tcp/TcpConnection.cpp:99-133 | After one message that had to wait, an open connection ends with the poller asked about nothing |
| TcpServerRuns.StepKeepsInv | src/Tcp/TcpServer.cpp:40-98 | No step of any loop breaks an assertion of the functions it calls, and each keeps the invariant: one task at most takes a connection further |
| TcpServerRuns.RunKeepsInv | src/Tcp/TcpServer.cpp:40-98 | So it is along every run |
| TcpServerRuns.StepForward | src/Tcp/TcpConnection.cpp:39-247 | A step leaves a connection's phase or takes it one of the ways forward, and its loop stays the same |
| TcpServerRuns.TrailForward | src/Tcp/TcpConnection.cpp:39-247 | Through any run a connection starts connecting, or connected when accepted for the base loop, and then only goes on to connected, disconnecting, disconnected, the third being the only one it may skip |
| TcpServerRuns.ErasedAndDestroyedOnce | src/Tcp/TcpServer.cpp:76-98 | In every run a connection is erased and destroyed at most once and only when disconnected; nothing refers to it once destroyed; and when no loop has work left, a disconnected one was erased and destroyed exactly once |
| TcpServerRuns.DestroyedInTurn | src/Tcp/TcpServer.cpp:95-97 | A queued connectDestroyed has run once its loop has called the functors before it, whatever else happens |
| TcpServerRuns.ErasedInTurn | src/Tcp/TcpServer.cpp:69-74 | A queued removal has run once the base loop has called the functors before it |
| TcpServerRuns.ClosedIsDestroyed | src/Tcp/TcpServer.cpp:69-98 | A closed connection has been erased and destroyed, once each, and nothing refers to it, once the base loop has called the functors up to its removal and after that its own loop those up to its destruction, whatever else happens meanwhile |
| TcpServerRuns.AcceptedComesUp | src/Tcp/TcpServer.cpp:40-67 | An accepted connection is on the loop the pool chose and up at once on the base loop, and on another when that loop has called what was queued on it |
| TcpServerRuns.ForceCloseCloses | src/Tcp/TcpConnection.cpp:232-247 | An open connection that is forced to close is disconnecting at once, and disconnected when its loop has called what was queued on it |
| TcpServerRuns.CloseAndShutdown | src/Tcp/TcpConnection.cpp:137-142 | The peer's close disconnects at once; shutdown makes a connected one disconnecting and leaves the others |
| TcpServers.TcpServer.NewConnection | src/Tcp/TcpServer.cpp:40-67 | Is the accepting step, with a fresh id, and keeps the invariant |
| TcpServers.TcpServer.RemoveConnection | src/Tcp/TcpServer.cpp:69-74 | At once on the base loop, queued there from another |
| TcpServers.TcpServer.RemoveConnectionInLoop | src/Tcp/TcpServer.cpp:76-98 | Erases exactly one element and queues the destruction on the connection's loop |
| TcpServers.TcpServer.CallFunctor | src/Reactor/EventLoop.cpp:141-143 | Is the step of a loop calling its next functor, with every assertion met |
| TcpServers.TcpServer.PeerClosed | src/Tcp/TcpConnection.cpp:200-214 | Is the closing step |
| TcpServers.TcpServer.ForceCloseConn | src/Tcp/TcpConnection.cpp:232-239 | Is the step that queues the forced close |
| TcpServers.TcpServer.ShutdownConn | src/Tcp/TcpConnection.cpp:137-142 | Is the step to disconnecting |

## Left out

- LFUCache: deletion of nodes, the mutex and the destructor; use counts are unbounded integers and capacity is any natural number; what later calls do to a cache that holds a key twice is not followed (the one caller stores a key only when absent, example/static_server_example.cpp:60-86).
- EventLoop: the poller, the channels and timers it handles, and quit before `m_looping` is set; a functor's own effects on the queue are further steps of the loop thread.
- TimerQueue: the hand-over of `addTimer` and `cancel` from other threads, which goes through the EventLoop queue; the sequence counter is one queue's, not shared by several; what follows the cancel of a pending timer is not followed further than the dangling entry; `double` intervals are reals.
- AsyncLogging: LogFile and its flushes (the output is a sequence), the timed wait, and starting and joining the thread.
- LogStream: floating-point output, booleans, characters and strings.
- Resp: integers wider than an int in received text, where atoi is undefined; a node of negative length that takes the parser before its buffer or back to the start of its array, which ends in the outcome SteppedBack; a search one past the terminator of a buffer that is exactly full, which finds nothing here, and one in a buffer without a NUL.
- ArrayResultExact: says nothing of arrivals of which a piece reaches the end of the first string while a negative number lies behind some end between two nodes, where the result can be right by chance (RightByChance).
- RedisConnect: connecting, authentication, pipelining and the pool.
- Buffers: unwrite, retrieveAsString, capacities, and sizes beyond an int.
- HttpContexts: a call of parseRequest in any state but the two expecting ones, which would not end, or with a method left by a rejected line, which stops at the assertion of setMethod; HttpAnswers goes on there, but no reply is sent any more.
- WebBenches: what an overrun of an array does to the program (MAXHOSTNAMELEN is 64, as on Linux), command-line parsing and the benchmark itself.
- HttpRoundTrip: requests are printed without a body; the parser answers at the end of the fields and reads none.
- HttpServer: the text of responses, start, and callbacks whose close flag depends on more than the request. The handler of example/http_server_example.cpp:15-53, which also takes Close for close, begins a new context with each read and so never completes a request that comes in two.
- TcpConnections: sends from another thread, the callbacks, and the poller; HandleWrite is a step that may happen although the constructor registers no callback for it; no event is handled after the close.
- TcpServers: the acceptor, the choice of a loop by the pool and the names; a callback runs as one step, its effects on other loops being what it queues; `shutdown` and `forceClose` are called on the connection's loop, and an event closes a connection at most once.
- Poll, Epoll, SocketHelp, InetAddress, Acceptor: wrappers over the kernel.
- LogFile, FileUtil, the MySQL pool, RedisCache, HttpResponse, Mimetype: outside effects, or printers with nothing to invert them.
