# Verified model of the game server

A Dafny model of the parts of the multiplayer game server that have real state, concurrency or codecs,
with proofs about every input, every run and every interleaving.

- **Worker pool** (`ThreadPool.dfy`, `ThreadPoolLiveness.dfy`, `ThreadPoolShutdown.dfy`, `ThreadPoolObject.dfy`).
  Submitters, workers and `stop` as a transition system over one mutex, one condition variable, one queue and one flag,
  for any number of workers. Evaluating the wait predicate and blocking are two steps, because `stop` stores the flag
  without the mutex. The queue drains on shutdown, as `server/src/Server.cpp:112` says and as the code does; the comment
  at `server/include/server/ThreadPool.h:28` that queued tasks are discarded is not what happens.
- **Framing** (`MessageFramer.dfy`, `Server.dfy`). The incremental `decode` and the blocking client loop against one
  specification `Parse`, with `encode` as its inverse.
- **RESP** (`Decimal.dfy`, `Resp.dfy`, `RedisServer.dfy`, `RedisClient.dfy`, `RedisSession.dfy`, `RedisPool.dfy`). The
  client's printer and reply parser composed with the server's request parser and commands (RESP2, sections "Arrays",
  "Bulk strings" and "Null bulk strings"), down to a map; and the connection pool.
- **Game** (`GameState.dfy`, `EventLog.dfy`). Match status, combat, conservation laws over whole runs, the capped event
  log, and the event log under concurrent recorders.
- **Requests and cache** (`Requests.dfy`, `CacheCoherence.dfy`, `RequestHandler.dfy`, `CacheManager.dfy`,
  `Registry.dfy`, `RequestAccounting.dfy`). What every request and expiry does to match, log, cache, gauge and counters
  as one function `Next` of the whole world, the handler object proved against it, cache coherence and the accounts of
  every sequential run; and the request counters with any number of requests in flight.
- **Histogram** (`Metrics.dfy`). Recorders interleaved one atomic operation at a time with a scrape.
- **Latency summary** (`MetricsCollector.dfy`). Rank selection on sorted samples.
- `Sums.dfy` holds the counting lemmas shared by all of them.

Operations that change state are methods proved against a function of the old state, or, where threads interleave,
steps of a transition system; the results are lemmas about those functions and systems.

## What turned out not to hold

- `stop` can wait for ever. A worker that found the wait predicate false and has not yet blocked misses the
  notification, and nothing wakes it again. `ThreadPoolShutdown.StopCanHangIff` gives the exact condition,
  `StopHangsConcretely` is a run, and `StopReturns` says what is true of every shutdown: at rest everybody but that one
  worker has left and every accepted task was handled.
- `encode` checks no limit, so a frame can be refused by its own decoder: `MessageFramer.RoundTripIff`.
- A value longer than INT_MAX makes the client's `get` throw and leaves the value itself on the stream, where the next
  call reads it: `RedisClient.Connection.Get` says exactly when, and `GetAfterThrow` shows a value that decides the
  answer of the next `get` under any key.
- The event log need not be in the order of its ids. `EventLog.OrderIff`: a bound on concurrency orders every log exactly
  if it allows one recorder at a time; `InOrderIffOldestFirst`: run by run, exactly if every append is made by the
  recorder holding the least id. `EventOrder` bounds how far an event can be from its place.
- The buckets of the histogram need not be cumulative beside a recorder, and a scrape can show it.
  `Metrics.CumulativeIff` and `StillScrapeIff` give the exact condition, `PairCanBreakIff` the one for a scrape with
  recorders moving between its loads, `ScrapeCanBreakCumulation` a finished scrape over the server's own buckets.
- The outcomes the exporter shows need not add up to the total it shows: `RequestAccounting.ScrapedTotals` gives the
  difference, `ScrapesDisagree` runs on either side.
- A cached position can be stale after a lost write, and need not be. `CacheCoherence.CachedRightIff`: it is right exactly
  if the latest write that took effect put the player where its latest join or move did. `RejoinCanBeStale` is a run: a
  departure leaves the entry behind, and a re-join whose write is lost does not replace it.
- A session lookup that throws leaves its value on a pooled connection, so later lookups may be told anything:
  `RequestHandler.ReadPositionAfter` speaks of runs without an internal error. `Requests.TaintedIff` says that an
  internal error is the only cause, `ShortTextsNeverTaint` when there is none.

## Assumptions

Atomics are sequentially consistent; scores, samples and sums are exact numbers. `recv` and `send` deliver any positive
number of bytes or fail; a failed receive is the end of the stream. RESP bytes are written as characters, and nothing
depends on how many there are. Expiry removes any entries at any time. Requests arrive with their JSON already parsed
into present, absent or wrongly typed fields. How a cache command fares (answered, carried out without the answer
arriving, or never carried out) is part of each request of a script, like the clock. A Redis command that was sent whole
is carried out before its client reconnects: a server that runs it later, after the client's timeout, is not described.

## Model

| member | source | states |
|---|---|---|
| ThreadPool.ReachableInv | server/src/ThreadPool.cpp:27-93 | for every pool size and schedule: mutual exclusion, conservation of submissions, exit only when drained, and no lost wakeup, as one inductive invariant |
| ThreadPool.EverySubmissionInOnePlace | server/src/ThreadPool.cpp:27-38 | each submission is refused, being decided, queued, in a handler or handled, and in one of them only |
| ThreadPool.FirstInFirstOut | server/src/ThreadPool.cpp:35-79 | tasks are taken in the order in which they were pushed, and the queue is the rest |
| ThreadPool.NothingAcceptedAfterAnExit | server/src/ThreadPool.cpp:30-76 | once any worker has exited the queue is empty and in no continuation is anything accepted |
| ThreadPool.JoinedMeansAllHandled | server/src/ThreadPool.cpp:40-93 | when all workers have exited, every accepted task was handled as often as it was accepted |
| ThreadPool.NoLostWakeup | server/src/ThreadPool.cpp:37-79 | in every reachable state with a blocked worker, queued tasks are at most undelivered notify_one calls plus workers that look before they next block; with no worker inside the mutex those are the woken ones that have not looked yet |
| ThreadPool.DecideIsEnabled | server/src/ThreadPool.cpp:69-79 | the pop after the wait never meets an empty queue |
| ThreadPool.SizeOfPool | server/src/ThreadPool.cpp:8-16 | in every schedule the pool has as many workers as were asked for, one if that was not positive |
| ThreadPool.AllCanBeBusy | server/src/ThreadPool.cpp:11-16 | for every n at least 1 some schedule has all n workers in handlers at once |
| ThreadPoolLiveness.OwnStepsAreBounded | server/src/ThreadPool.cpp:27-93 | in every schedule, stopping or not, the pool's own steps are at most the work there was and the work that came in |
| ThreadPoolLiveness.LeftAloneItFinishes | server/src/ThreadPool.cpp:61-93 | from every reachable state the pool left to itself takes a bounded number of steps, and where it rests the queue is empty and every accepted task was handled |
| ThreadPoolShutdown.OnlyTheLateWorkerIsMissed | server/src/ThreadPool.cpp:40-48 | any worker asleep after notify_all had found the predicate false and not yet blocked when it was called, and there is at most one such worker |
| ThreadPoolShutdown.ShutdownIsBounded | server/src/ThreadPool.cpp:40-93 | while stopping, a measure over queue and worker phases bounds the pool's own steps in every schedule |
| ThreadPoolShutdown.SomethingMoves | server/src/ThreadPool.cpp:61-93 | a worker that is neither blocked nor exited, an admitted push or a pending notification always leaves some step of the pool enabled |
| ThreadPoolShutdown.EverybodyElseLeaves | server/src/ThreadPool.cpp:40-76 | wherever a schedule comes to rest after notify_all, every worker but the late one has exited |
| ThreadPoolShutdown.AcceptedWorkIsDone | server/src/ThreadPool.cpp:40-93 | there the queue is empty and every accepted task was handled, whether or not stop returns |
| ThreadPoolShutdown.StopReturns | server/src/ThreadPool.cpp:40-48 | at rest the pool is joined or exactly the one late worker sleeps; with nobody late it is joined |
| ThreadPoolShutdown.ShutdownSettles | server/src/ThreadPool.cpp:40-93 | from every stopping state the pool's own steps lead to rest |
| ThreadPoolShutdown.StopCanHangIff | server/src/ThreadPool.cpp:41-45 | without outside help stop can wait for ever if and only if some worker is between a false predicate and the block when notify_all is called |
| ThreadPoolShutdown.HungForEver | server/src/ThreadPool.cpp:44-46 | a hung pool stays hung whatever workers and submitters do |
| ThreadPoolShutdown.StopHangsConcretely | server/src/ThreadPool.cpp:40-71 | a run with one worker in which stop never returns |
| ThreadPoolShutdown.SecondStopChangesNothing | server/src/ThreadPool.cpp:40-48 | a second stop of a joined pool changes nothing |
| ThreadPoolObject.Pool.constructor | server/src/ThreadPool.cpp:8-16 | as many workers as asked for, at least one, all at the top of their loop; nothing queued or pending |
| ThreadPoolObject.Pool.SubmitLocked | server/src/ThreadPool.cpp:27-36 | refused once stopping, else queued at the back; a schedule of the protocol |
| ThreadPoolObject.Pool.NotifyOneCall | server/src/ThreadPool.cpp:37 | wakes one sleeping worker, or is lost |
| ThreadPoolObject.Pool.StopSignal | server/src/ThreadPool.cpp:41-42 | leaves nobody asleep and touches nobody else |
| ThreadPoolObject.Pool.WorkerTurn | server/src/ThreadPool.cpp:65-80 | one turn ends asleep, exited or with the oldest task, as queue and flag decide; a schedule of the protocol |
| MessageFramer.ReadIsOrOfShifts | server/src/MessageFramer.cpp:15-20 | or-ing the shifted bytes of a header, on 32-bit words, is the arithmetic reading used in the proofs |
| MessageFramer.WriteIsShiftAndMask | server/src/MessageFramer.cpp:22-27 | shifting and masking any 32-bit word gives the bytes of the arithmetic writing used in the proofs |
| MessageFramer.ReadWrite | server/src/MessageFramer.cpp:15-27 | reading inverts writing on every 32-bit value |
| MessageFramer.WriteRead | server/src/MessageFramer.cpp:15-27 | writing inverts reading on every four bytes |
| MessageFramer.FirstIsEncode | server/src/MessageFramer.cpp:42-62 | whatever is recognised was the encoding of the payload, at most 1 MiB, and exactly it is removed |
| MessageFramer.ParseIsEncodeAll | server/src/MessageFramer.cpp:42-62 | every stream is the encoding of its messages and a rest that holds none |
| MessageFramer.ParseUnique | server/src/MessageFramer.cpp:33-62 | that decomposition is the only one |
| MessageFramer.RoundTrip | server/src/MessageFramer.cpp:33-62 | any list of payloads within the limit comes back from the concatenation of its encodings, with nothing left |
| MessageFramer.RoundTripIff | server/src/MessageFramer.cpp:33-51 | a payload survives its own encoding exactly when it is at most 0x100000 bytes, 32-bit truncation of the length included |
| MessageFramer.ParseAppend | server/src/MessageFramer.cpp:42-62 | later bytes never change what an earlier prefix was parsed to |
| MessageFramer.TooLargeIsFinal | server/src/MessageFramer.cpp:48-51 | after an oversized header no further bytes yield a message |
| MessageFramer.EncodeFrame | server/src/MessageFramer.cpp:33-40 | the frame filled in place is the header and the payload |
| MessageFramer.ByteBuffer.Decode | server/src/MessageFramer.cpp:42-62 | success leaves exactly what follows the encoding of the message; refusal and exception leave the buffer alone |
| MessageFramer.ByteBuffer.Drain | server/include/server/MessageFramer.h:34-40 | decoding until refused yields the specified messages, rest and reason |
| MessageFramer.FeedChunks | server/include/server/MessageFramer.h:34-40 | feeding decode in chunks of any shape yields the messages of the whole stream and stops for the same reason |
| Server.ReadExact | server/src/MessageFramer.cpp:64-75 | exactly n bytes in order for every way recv splits them, or the stream ended before them |
| Server.WriteAll | server/src/MessageFramer.cpp:77-88 | all the data in order for every way send splits it, or a proper prefix and a failure |
| Server.HandleClient | server/src/Server.cpp:158-197 | dispatches exactly the messages of the specification and answers each in order; says which prefix after a failed send |
| Server.ResponsesAreRead | server/src/Server.cpp:183-186 | decoding what was sent yields the i-th response for the i-th message, if each fits |
| Server.ParsersAgree | server/src/Server.cpp:161-197 | the blocking loop and the incremental decoder find the same messages and stop for the same reason under every segmentation and chunking |
| Decimal.PyIntOfPrint | python/mock_redis.py:80-86 | the server reads back every printed number |
| Decimal.DigitsSpelledOut | server/src/RedisClient.cpp:64-66 | printing puts the last digit behind the printed quotient, and the digits are 0 to 9 |
| Decimal.StoiOfPrint | server/src/CacheManager.cpp:67-92 | std::stoi reads back every printed int |
| Decimal.StoiTooBig | server/src/RedisClient.cpp:104 | beyond INT_MAX it throws |
| Resp.BuildCommand | server/src/RedisClient.cpp:62-69 | the wire text built argument by argument is the RESP array of bulk strings |
| Resp.WireText | server/src/RedisClient.cpp:62-69 | the wire text of a command of two arguments, spelled out |
| Resp.ParseResp | python/mock_redis.py:73-89 | the parser's result and what it leaves unread, on every input: arrays, inline lines, malformed and cut ones |
| Resp.InlineRoundTrip | python/mock_redis.py:77-79 | a line of words is read as those words, and exactly the line is consumed |
| Resp.RequestRoundTrip | server/src/RedisClient.cpp:59-69 | for arguments of arbitrary bytes and any following bytes the server reads exactly the arguments and leaves exactly what follows |
| Resp.CutRequest | python/mock_redis.py:73-108 | no proper prefix of a command is ever executed |
| RedisServer.DelCountsPresentKeys | python/mock_redis.py:39-44 | DEL answers how many distinct given keys were present |
| RedisServer.CommandsAreCarriedOut | python/mock_redis.py:17-71 | what every command, in any case of letters and with any number of arguments, leaves in the dictionaries and answers |
| RedisServer.Server.HandleCommand | python/mock_redis.py:17-71 | what each command does to the dictionaries and answers |
| RedisServer.Server.Serve | python/mock_redis.py:91-108 | a request that parses, inline ones included, is executed and answered; one that did not arrive whole changes nothing |
| RedisClient.ExecuteOp | python/mock_redis.py:17-71 | the server carries out what the client's call means, for arbitrary keys and values |
| RedisClient.LengthLine | server/src/RedisClient.cpp:100-108 | the length line reads as -1, as the length, or throws beyond INT_MAX |
| RedisClient.Connection.SendCommand | server/src/RedisClient.cpp:59-76 | true exactly when all of the command was taken, and then it was executed once and its reply queued behind what was unread; a short send executes nothing |
| RedisClient.Connection.ReadLine | server/src/RedisClient.cpp:78-98 | whatever the stream holds: the line up to the first CR, which LF must follow, or a dropped connection |
| RedisClient.Connection.ReadBulkString | server/src/RedisClient.cpp:100-128 | whatever the stream holds: value, null, exception or lost connection, and exactly what is left unread |
| RedisClient.AnswerToBulk | server/src/RedisClient.cpp:149-162 | a bulk reply alone on the stream is read for what it says and leaves nothing, or the value itself when the length threw |
| RedisClient.LeftoverIsRead | server/src/RedisClient.cpp:100-108 | after a throw a value that begins with a bulk reply decides the next answer, whatever the real reply |
| RedisClient.GetAfterThrow | server/src/RedisClient.cpp:149-162 | two gets in a row on such a value: the second finds what the first one's value says, under any key |
| RedisClient.Connection.Ping | server/src/RedisClient.cpp:130-135 | on a synchronised stream true exactly while the connection holds; on any stream, what the next line says; changes no data |
| RedisClient.Connection.Set | server/src/RedisClient.cpp:137-147 | what is sent, EX and its seconds only for a positive expiry; while connected the write happened, else at most that write; the result is what the next line says, true on a synchronised stream, which stays so |
| RedisClient.Connection.Get | server/src/RedisClient.cpp:149-162 | on a synchronised stream exactly the stored value, a miss, or the exception for values beyond 0x7FFFFFFF bytes, with the state after it; on any stream, what is next on it |
| RedisClient.Connection.Del | server/src/RedisClient.cpp:164-168 | true means removed; one line is consumed, so a synchronised stream stays so |
| RedisClient.Connection.HSet | server/src/RedisClient.cpp:170-174 | true means the field was written; one line is consumed, so a synchronised stream stays so |
| RedisClient.Connection.HGet | server/src/RedisClient.cpp:176-189 | as Get, for a field of a hash |
| RedisSession.RunSession | server/src/RedisClient.cpp:130-189 | over any sequence of calls, reconnecting after every lost connection, each answer is that of the calls carried out before it, so no reply is read by another command |
| RedisSession.SessionIsAMap | server/src/RedisClient.cpp:149-189 | from an empty server every answered get finds v exactly if v fits an int and the latest set carried out, not followed by a del, wrote v; likewise hget |
| RedisSession.GetFindsTheLatestSet | python/mock_redis.py:25-44 | get finds v exactly when the latest set of the key, not followed by a del, wrote v |
| RedisSession.HGetFindsTheLatestHSet | python/mock_redis.py:46-61 | hget finds v exactly when the latest hset of the field wrote v |
| RedisPool.PoolOwnership | server/src/RedisClient.cpp:234-261 | under any interleaving nobody shares a connection, idle is at most the pool size, and created = idle + lent + dropped |
| RedisPool.LastReleasedFirstLent | server/src/RedisClient.cpp:238-260 | what was released last is lent next, and nothing else changes |
| GameState.InvariantOfRuns | server/src/GameState.cpp:15-137 | the match and ledger invariants hold after every sequence of calls |
| GameState.PlayersAreWellFormed | server/src/GameState.cpp:15-124 | every player is stored under its own id, on the map, with 25, 50, 75 or 100 health |
| GameState.WaitsUntilSomebodyJoins | server/src/GameState.cpp:28-33 | WAITING exactly until the first join |
| GameState.FinishedOnceEverybodyLeft | server/src/GameState.cpp:56-60 | FINISHED exactly from the first departure that leaves nobody behind, for ever |
| GameState.ActiveMeansSomebodyThere | server/src/GameState.cpp:28-60 | an ACTIVE match has somebody in the arena |
| GameState.EliminationNeverEmptiesTheArena | server/src/GameState.cpp:110-121 | the attacker is still there after an elimination, so the branch that would finish the match is never taken |
| GameState.PlayersAreConserved | server/src/GameState.cpp:15-63 | joins = players in the arena + leaves + kills |
| GameState.DamageIsConserved | server/src/GameState.cpp:100-115 | 25 × successful attacks = 100 × kills + damage on active players + damage taken along by leavers |
| GameState.KillsAreConserved | server/src/GameState.cpp:110-115 | the kill counter = kills of active players + kills of departed players |
| GameState.ScoreIsEarned | server/src/GameState.cpp:105-111 | a score never overwritten is 10 × landed hits + 90 × kills |
| GameState.GameState.AddPlayer | server/src/GameState.cpp:15-38 | refused exactly for a player already there, else adds it at (500,500) with 100 health and starts a waiting match |
| GameState.GameState.RemovePlayer | server/src/GameState.cpp:40-63 | refused exactly for an absent player, else removes exactly it, reports its score, and finishes an active match it leaves empty |
| GameState.GameState.MovePlayer | server/src/GameState.cpp:65-77 | refused exactly for an absent player, else moves exactly it, to 0 or 1000 where the coordinate is off the map |
| GameState.GameState.AttackPlayer | server/src/GameState.cpp:79-124 | exactly three reasons to refuse, in order; else 25 damage and 10 points, or 100 points, a kill and the removal of a target with at most 25 health left |
| GameState.GameState.SetPlayerScore | server/src/GameState.cpp:126-137 | refused exactly for an absent player, else overwrites exactly that score |
| GameState.GameState.RecordEvent | server/src/GameState.cpp:219-235 | appends one event with the next id; the capped log stays the newest 1000 of all events ever |
| GameState.GameState.RecentEvents | server/src/GameState.cpp:237-242 | the newest n of all events ever, as far as the cap remembers |
| GameState.GameState.TakeSnapshot | server/src/GameState.cpp:146-190 | counters, players, the number of all events and the newest five |
| EventLog.EventOrder | server/src/GameState.cpp:219-235 | under any interleaving ids are distinct, pushed + in flight = counter - 1, and with at most T recorders in flight the event at place k, from 0, has an id of at most k + T |
| EventLog.SequentialOrder | server/src/GameState.cpp:219-235 | without concurrency the log is in order with consecutive ids |
| EventLog.BoundIsTight | server/src/GameState.cpp:222-229 | for every T some run meets the bound |
| EventLog.OrderIff | server/src/GameState.cpp:222-229 | every run with at most T recorders in flight is in order if and only if T is at most 1 |
| EventLog.InOrderIffOldestFirst | server/src/GameState.cpp:222-229 | a run leaves the log in order if and only if every append is made by the recorder holding the least id in flight |
| CacheManager.PositionRoundTrip | server/src/CacheManager.cpp:65-92 | the "x,y" text of any two ints is read back |
| CacheManager.KeysAreDistinct | server/src/CacheManager.cpp:22-67 | no two players share a key and sessions never collide with positions |
| CacheManager.CacheManager.GetPlayerPosition | server/src/CacheManager.cpp:74-100 | a hit is the decoded entry and is counted as a hit, anything else as a miss |
| CacheCoherence.CachedRightIff | server/src/RequestHandler.cpp:73-134 | in every run a cached position of an active player is right if and only if the latest write that took effect put it where its latest join or move did, or, if none did, the leftover entry says so |
| CacheCoherence.StandsWhereLastPlaced | server/src/GameState.cpp:15-77 | an active player stands where its latest join or move put it |
| CacheCoherence.EntryIsLastTaken | server/src/CacheManager.cpp:65-72 | a present entry is the text of the latest write that took effect, or the leftover |
| CacheCoherence.CacheIsCoherent | server/src/RequestHandler.cpp:73-134 | so the cached position is right whenever the latest write of it took effect; through moves, re-joins, eliminations and expiries |
| CacheCoherence.ActivePlayersWereWritten | server/src/RequestHandler.cpp:73-134 | with no position write lost, that covers every active player |
| CacheCoherence.LostWriteIff | server/src/RequestHandler.cpp:82-123 | after a join or a move whose write was lost the cached position is right exactly if the old entry names the new place |
| CacheCoherence.RejoinCanBeStale | server/src/RequestHandler.cpp:73-261 | join, move, leave and a re-join whose write is lost: the cache says where the player stood, right only of (500, 500) |
| CacheCoherence.SessionIsLeft | server/src/RequestHandler.cpp:82-245 | in every run a session is in the store exactly if it was there or a join wrote it and no departure or expiry removed it since |
| CacheCoherence.SessionIsFound | server/src/RequestHandler.cpp:191-203 | a state request of an active player whose lookup is answered counts a hit exactly then, else a miss |
| Requests.TaintedIff | server/src/CacheManager.cpp:42 | in every run a cache connection can hold unread bytes exactly if some response was an internal error |
| Requests.ShortTextsNeverTaint | server/src/CacheManager.cpp:42 | with sessions of at most INT_MAX bytes there is no internal error |
| Requests.GaugeIsPlayersAndEliminations | server/src/RequestHandler.cpp:80-240 | in every run the gauge is the number of players plus the eliminations since the last successful join or leave |
| Requests.RequestsAreAccounted | server/src/RequestHandler.cpp:16-69 | in every run each request is counted once, as success or failure, and timed once, and the events are as many as the successful responses of the six recording actions |
| Requests.MetricsCountThemselves | server/src/RequestHandler.cpp:263-268 | a metrics response shows one request more than it shows outcomes: its own |
| Requests.ErrorsChangeNothing | server/src/RequestHandler.cpp:73-261 | an error response leaves match, log, cache and gauge as they were |
| Requests.ResponsesAreDue | server/src/RequestHandler.cpp:37-257 | which response every request is due: the reasons to refuse it in their order, and success in every other case |
| Requests.ResponsesAreTrue | server/src/RequestHandler.cpp:73-268 | what a response says is so and nothing else in the match changed; a snapshot and the metrics report match, log and counters as they are |
| Requests.EventsTellOfRequests | server/src/RequestHandler.cpp:99-249 | a recorded success appends one event, next in number, under the name of its action, with the id of who asked and the data of its response; every other response appends none |
| Requests.GameOfRun | server/src/RequestHandler.cpp:73-261 | the match of every run is that of its calls, so the conservation laws of GameState hold of it |
| RequestHandler.RequestHandler.HandleJoin | server/src/RequestHandler.cpp:73-106 | response, match, log, cache and gauge are those of the specification |
| RequestHandler.RequestHandler.HandleMove | server/src/RequestHandler.cpp:108-134 | the field checks in order; response, match, log and cache are those of the specification |
| RequestHandler.RequestHandler.HandleAttack | server/src/RequestHandler.cpp:136-162 | response, match and log are those of the specification, and nothing else changes |
| RequestHandler.RequestHandler.HandleChat | server/src/RequestHandler.cpp:164-189 | the five refusals in order, else the message and its event |
| RequestHandler.RequestHandler.HandleGetState | server/src/RequestHandler.cpp:191-208 | the snapshot of match and log, the refusal, or the exception of the lookup; a hit or a miss is counted |
| RequestHandler.RequestHandler.HandleUpdateScore | server/src/RequestHandler.cpp:210-230 | response, match and log are those of the specification |
| RequestHandler.RequestHandler.HandleLeave | server/src/RequestHandler.cpp:232-261 | response, match, log, cache and gauge are those of the specification |
| RequestHandler.RequestHandler.Handle | server/src/RequestHandler.cpp:16-69 | one request takes the whole world to the next one of the specification, counters and clock included |
| RequestHandler.RunHandler | server/src/RequestHandler.cpp:16-261 | every run of requests and expiries is the run of the specification, response by response |
| RequestHandler.ReadPositionAfter | server/src/CacheManager.cpp:74-100 | after any run without a lost position write and without an internal error a reader whose entry is there and arrives is told the true position of an active player, else nothing, and never an exception; sessions of readable length rule the internal error out |
| RequestAccounting.TotalsAddUp | server/src/RequestHandler.cpp:16-69 | under every interleaving total = successes + failures + requests in flight, and the timed ones are all but those with a running timer |
| RequestAccounting.EqualWhenQuiescent | server/src/RequestHandler.cpp:16-69 | with nobody on the way total, outcomes and samples are equal |
| RequestAccounting.ScrapedTotals | server/src/Metrics.cpp:108-121 | by how much the outcomes an exporter shows differ from the total it shows, exactly and bounded both ways |
| RequestAccounting.ScrapesDisagree | server/src/Metrics.cpp:108-121 | a run whose outcomes fall short of the total, and one whose outcomes exceed the total loaded before |
| Metrics.ReachableInv | server/src/Metrics.cpp:58-76 | under every interleaving bucket, count and sum are exactly what the operations already done say |
| Metrics.SumStep | server/src/Metrics.cpp:61-66 | the compare-exchange loop loses no addition and makes none twice, under contention and spurious failure |
| Metrics.NearlyCumulative | server/src/Metrics.cpp:58-76 | at every instant no bucket exceeds the count, nor the next bucket by more than the recorders between the two |
| Metrics.ScrapedCountIsLargest | server/src/Metrics.cpp:127-137 | a scrape never reports a bucket above its count |
| Metrics.ScrapedNearlyCumulative | server/src/Metrics.cpp:127-132 | consecutive scraped buckets are out of order by at most the recorders at the second one |
| Metrics.CumulativeIff | server/src/Metrics.cpp:68-76 | a bucket is at most the next wider one if and only if the recorders between the two are no more than the samples the wider one alone has |
| Metrics.StillScrapeIff | server/src/Metrics.cpp:127-137 | a finished scrape while nobody moves shows a pair out of order if and only if that fails |
| Metrics.PairCanBreakIff | server/src/Metrics.cpp:127-132 | with recorders moving, a scrape that has loaded bucket i can still show it above the next if and only if it is above it now |
| Metrics.ScrapeCanBreakCumulation | server/src/Metrics.cpp:58-137 | a finished scrape over the 13 bounds of the server that is not cumulative |
| Metrics.ExactWhenQuiescent | server/src/Metrics.cpp:58-76 | with nobody mid-update each bucket is the number of finished calls whose sample is at most its bound, +Inf is the count, and the sum is exact |
| Metrics.LatencyBucketsAscend | server/include/server/Metrics.h:57-72 | the server's 13 bounds, and that they ascend |
| Registry.MetricsRegistry.RecordRequestLatency | server/src/Metrics.cpp:58-76 | one call on its own adds one to exactly the buckets whose bound is at least the sample, to +Inf and to the count, and the sample to the sum |
| Registry.CountsAreCumulative | server/src/Metrics.cpp:68-76 | the histogram of any samples is cumulative and +Inf counts them all |
| MetricsCollector.SortIsUnique | simulator/src/MetricsCollector.cpp:48 | any sort gives the same sequence |
| MetricsCollector.RankIsUnique | simulator/src/MetricsCollector.cpp:51-56 | the selected element is the one sample with at most k below it and more than k at or below it, and the only one |
| MetricsCollector.PercentileHasRank | simulator/src/MetricsCollector.cpp:51-60 | each percentile is a recorded sample of that rank |
| MetricsCollector.RankIndexIsFloor | simulator/src/MetricsCollector.cpp:53-54 | below 100 percent the rank is the truncated share and the clamp is never needed |
| MetricsCollector.PercentilesAreOrdered | simulator/src/MetricsCollector.cpp:58-61 | larger percentages give larger percentiles, none above the maximum |
| MetricsCollector.AverageIsBetween | simulator/src/MetricsCollector.cpp:46-61 | minimum ≤ average ≤ maximum |
| MetricsCollector.SummaryIsOrderIndependent | simulator/src/MetricsCollector.cpp:17-64 | the whole summary depends only on which requests were recorded |
| MetricsCollector.SummaryTells | simulator/src/MetricsCollector.cpp:17-64 | field by field: outcomes counted, rates and mean as ratios, p50, p95 and p99 the samples of those ranks in order, the greatest sample |
| MetricsCollector.MetricsCollector.ComputeSummary | simulator/src/MetricsCollector.cpp:17-64 | the accumulating loop and the sort compute a summary that tells that |

## Left out

- `m_activeTasks`, `pendingCount` and `threadCount` of the pool: diagnostics that no decision reads.
- Concurrent calls of `stop` joining the same threads: joining is the state in which every worker has exited.
- Handlers of several connections interleaving on one player's cache entry: coherence is about sequential runs.
- RedisSession.RunSession: a sent command carried out only after the client reconnected is not described.
- RedisSession.SessionIsAMap: the same.
- Socket calls, timeouts, accept and listen: receive and send are nondeterministic; connecting to Redis succeeds or fails.
- Decimal forms of Python's `int` with underscores: they read as an error here; nothing prints them.
- asyncio's limit on the length of a line: header and length lines are short.
- `hgetall`: the server has no HGETALL.
- RedisPool.PoolOwnership: connections are numbered values; the `unique_ptr` moves that carry them are not modelled.
- Sockets inside pooled connections: the pool does not look at them.
- `std::sort` is a library routine: an insertion sort stands for it, and `MetricsCollector.SortIsUnique` says why any other sort gives the same.
- JSON parsing and dumping, and the text of messages: responses are values.
- Narrowing of JSON integers to `int`, `int` overflow of scores, and double rounding.
- `recordDatabaseOperation`: the same compare-exchange loop as the latency sum.
- The database: its calls do not influence the match, cache or counters modelled.
- The rest of the Prometheus text and the JSON export: they only read.
