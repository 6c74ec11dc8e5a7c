# PolyProxy: a verified model of the core

PolyProxy is a forward proxy that spreads HTTP and SOCKS5 traffic over a pool of upstream proxies, and that can crawl,
validate and add free proxies on its own. This project models the parts whose correctness depends on state that lives
across calls, on two sides of a protocol, or on the order in which goroutines run, and proves what they keep.

Check it with `dafny verify dfyconfig.toml` (Dafny 4.11).

## How the model is organised

| file | subject |
|---|---|
| `Pool.dfy`, `Selection.dfy` | the upstream pool: a slice updated in place, a name index, a ticket counter; `Select` as a function of what it reads |
| `RoundRobin.dfy`, `Arithmetic.dfy` | the 64-bit ticket counter: coverage and fairness of `Select`, with the wrap-around |
| `Failover.dfy` | the bounded retry loop over `Select`, alone on a fixed pool and under arbitrary interference |
| `Bytes.dfy`, `Socks5Wire.dfy`, `Streams.dfy` | RFC 1928 and RFC 1929 messages; a connection whose bytes arrive in arbitrary chunks and whose writes fail at some point |
| `Socks5Server.dfy`, `Socks5Client.dfy` | the two ends: sequential methods on a connection, each proved equal to a step machine |
| `ServerGrammar.dfy`, `ClientGrammar.dfy` | what each end does with every possible input, in literal bytes and without the machines: what is accepted, what is refused and how |
| `Socks5Session.dfy`, `Socks5Faults.dfy` | both step machines composed over two byte queues, under every schedule; the same over links that break |
| `JsonPath.dfy`, `FieldPairing.dfy`, `Sequences.dfy` | the path splitter, the path interpreter and the entry extraction; when two-field extraction keeps elements together |
| `RingLog.dfy` | the modulo-indexed log buffer against the full history |
| `Pipe.dfy`, `Conntrack.dfy` | the two copiers of a tunnel and the closing of a connection entry |
| `Counting.dfy`, `Validator.dfy` | concurrent validation under a semaphore |
| `Crawler.dfy`, `CrawlCounts.dfy` | the concurrent crawl and its de-duplicating merge; when its per-source counts add up and are determined |
| `DynamicServer.dfy`, `DynamicRunner.dfy`, `Cancellation.dfy`, `BatchAdd.dfy` | the dynamic loops with the pool they feed, their accounting and their cancellation; adding a batch to the pool |
| `CycleTrace.dfy` | where what a cycle adds and reports comes from: the AutoPool decision, the validation, the crawl |
| `Options.dfy`, `Config.dfy`, `HostPort.dfy`, `Persistence.dfy` | validation of the configuration; save and reload of the pool |
| `DecimalText.dfy`, `PortText.dfy` | port numbers and their text |

Objects that the program changes in place are classes (`Pool.Pool`, `Pool.Upstream`, `RingLog.Logger`, `Streams.Conn`,
`Config.PoolConfig`, `Conntrack.Manager`, `Crawler.Collector`, `DynamicServer.Server`). Their methods are proved against
specification functions, and the theorems are about those functions. Goroutines are state machines: a `Next` relation
with one disjunct per atomic action, an invariant, and theorems over all runs.

Outcomes that the program gets from outside are parameters: dial results, random draws, the hash function, probe
verdicts, HTTP bodies, the clock. A dynamic cycle takes the result of *any* complete run of the crawl machine and of
*any* complete run of the validation machine, so its accounting rests on their theorems.

## What was found

* Round-robin reaches every healthy upstream, but its counter wraps at 2^64. Of h candidates, h + (2^64 mod h)
  consecutive tickets always reach every one, and fewer do not from every start (`RoundRobin.TicketsNeeded`); that can come to 2h - 1
  (`RoundRobin.TightInstance`), so the 2n attempts of the retry loop are enough. Windows of tickets that do not wrap are
  fair; all windows, those across the wrap included, are fair exactly when h divides 2^64 (`RoundRobin.FairnessExact`).
* Certain failover to the next healthy upstream happens only under round-robin. README_EN.md:45 promises it for every
  strategy; with `hash` or `name` and fixed health the same upstream is picked again and the loop gives up
  (`Failover.StickyStrategies` says exactly when those connect). Under `random` it can succeed by chance, and it is
  certain exactly when every candidate can be dialled (`Failover.RandomIsCertain`).
* The comment at internal/pool/pool.go:188 says that `Select` falls back to the first upstream when none is healthy.
  The code falls back to all of them, and so does the model.
* A level-filtered log query repeats records after wrap-around. `RingLog.QueryExact` gives the exact condition.
* `parsePort` accepts digit strings whose value overflows 64 bits into the port range. `PortText.ParsePortExact` gives
  the exact condition.
* A SOCKS5 success reply whose bind address is an empty name leaves two bytes unread. `Socks5Client.AlignedAfterReply`
  shows that this is the only such reply with a bind address of the announced type.
* Crawl sources that share a name share a count. The counts sum to the total in every run exactly when no name with an
  entry under it is shared (`CrawlCounts.CountsSumExact`); with distinct names the counts are independent of the
  schedule exactly when no two sources share a key (`CrawlCounts.CountsAgreeExact`). The first only matters to callers
  of the exported `Crawl` with their own list: both callers in internal/api/api.go (lines 157 and 570) pass the built-in
  sources, whose names are distinct.
* Two-field extraction pairs by rank. It joins texts of one element at every rank exactly when the lists stay in step
  after the first element with different numbers of texts (`FieldPairing.PairingExact`); an element without a port
  shifts the later ports (`FieldPairing.MissingPortMispairs`).
* Saving a pool loses IPv6 servers (brackets are doubled on reload) and the names and credentials of direct upstreams;
  `Persistence.SaveReload` and `Persistence.ReloadSave` give the exact conditions. It also loses the pin of strategy
  `name` and the round-robin counter; `Persistence.SelectionSurvives` says exactly when a call of `Select` notices, and
  `Persistence.RotationSurvives` when the later calls do.
* A dynamic loop that has been stopped can show Running again exactly until it has returned
  (`Cancellation.StoppedMayShowRunning`), although it can add nothing but the batch already past its check
  (`Cancellation.CancelledAddsOneBatch`).

## Model

| member | source | states |
|---|---|---|
| RoundRobin.EveryPosition | internal/pool/pool.go:223-225 | any h + (2^64 mod h) consecutive tickets, at most 2h - 1, pick every one of h positions, also when the 64-bit counter wraps among them |
| RoundRobin.TicketsNeeded | internal/pool/pool.go:223-225 | m consecutive tickets reach all h positions from every start if and only if m is at least h + (2^64 mod h) |
| RoundRobin.TightInstance | internal/pool/pool.go:223-225 | for 274177 candidates that is 2h - 1 |
| RoundRobin.HitsClosedForm | internal/pool/pool.go:223-225 | how many of m wrapped tickets pick a position, in closed form, for a window without a visible wrap |
| RoundRobin.HitsAcrossWrap | internal/pool/pool.go:223-225 | the count in a window across the wrap is that of the tickets before it plus that of the tickets after it, in closed form |
| RoundRobin.Fairness | internal/pool/pool.go:223-225 | over m tickets that do not wrap, or when h divides 2^64, each position is picked floor(m/h) or ceil(m/h) times |
| RoundRobin.FairnessExact | internal/pool/pool.go:223-225 | all windows of tickets, wrapped ones included, are fair to every position if and only if h divides 2^64 |
| RoundRobin.PicksAreHits | internal/pool/pool.go:209-225 | the calls of Select that pick a candidate are those whose ticket picks its position |
| RoundRobin.SharesAddUp | internal/pool/pool.go:189-236 | however the calls of Select are split among concurrent callers, the callers' shares of an upstream add up to the calls that pick it |
| RoundRobin.FairAmongCallers | internal/pool/pool.go:209-225 | in every interleaving of callers, Select gives each candidate out floor(m/h) or ceil(m/h) times in m calls without a visible wrap |
| Selection.SelectIsHealthy | internal/pool/pool.go:209-235 | without a name asked for, an upstream of the pool is picked, and a healthy one whenever there is one |
| Selection.CandidatesMeaning | internal/pool/pool.go:209-218 | the candidates are the healthy upstreams in the order of the pool, or the whole pool when none is healthy |
| Selection.PickByStrategy | internal/pool/pool.go:209-235 | of the candidates: random picks by the draw, round-robin by the ticket, hash by the hash of the key, or of "default" for an empty one, each modulo their number; name without a pin picks the first |
| Selection.PickByName | internal/pool/pool.go:196-207 | a name asked for, else the pin of strategy name, gives the upstream of that name whatever its health, and an error when there is none |
| Selection.NamedUnique | internal/pool/pool.go:202-207 | with unique names a lookup by name finds exactly the upstream of that name |
| Pool.Upstream.Probe | internal/pool/pool.go:255-274 | a probe makes a direct upstream healthy and sets any other to the outcome of its dial |
| Pool.Pool.New | internal/pool/pool.go:48-68 | one healthy upstream per entry in order; index and representation are sound when the names are unique |
| Pool.Pool.Add | internal/pool/pool.go:88-98 | refuses exactly the names already present, else appends and marks healthy; keeps the index exact |
| Pool.Pool.Remove | internal/pool/pool.go:101-116 | reports whether the name was there; the in-place shift equals order-preserving deletion by name; keeps the index exact |
| Pool.Pool.ShiftDown | internal/pool/pool.go:109-114 | moving the tail down in the backing array cuts out exactly one position |
| Pool.WithoutAt | internal/pool/pool.go:109-114 | with unique names, deleting by name is cutting at the upstream's position |
| Pool.RemovedIndex | internal/pool/pool.go:108-114 | deleting the name from the index and the position from the slice keeps names unique and the index exact |
| Pool.Pool.List | internal/pool/pool.go:78-84 | a fresh copy of the slice |
| Pool.Pool.CollectCandidates | internal/pool/pool.go:209-218 | the healthy upstreams in order, or the whole slice when there is none |
| Pool.Pool.Select | internal/pool/pool.go:189-236 | picks as specified, an upstream of the pool, and takes one ticket exactly in the round-robin branch |
| Pool.NamedInPool | internal/pool/pool.go:202-207 | the index lookup agrees with a search of the list |
| Pool.Run | internal/pool/pool.go:78-116 | over every run of additions, removals and probes: names unique, index exact, direct upstreams healthy, earlier List results unchanged |
| Pool.Start | internal/pool/pool.go:48-68 | a configuration that passes validation gives a pool that meets the conditions of every run |
| Failover.FailoverIsSafe | internal/proxy/http.go:67-98 | under arbitrary pool and health changes and any strategy: the loop begins at most 2N iterations, dials each name at most once, dials only upstreams seen healthy or direct; the connection is from the named upstream whose dial succeeded, every earlier dial having failed, and the error reported without one is that of a dial or of an upstream seen unhealthy |
| Failover.LoopIsSafe | internal/proxy/http.go:67-98 | the same from any point inside the loop |
| Failover.LoopFindsFirst | internal/proxy/http.go:67-98 | on a fixed pool the loop connects through the first good pick still to come, if any |
| Failover.FailoverExact | internal/proxy/http.go:67-98 | failover connects exactly when one of its first 2n picks is good, for every strategy |
| Failover.HealthyIsPicked | internal/pool/pool.go:209-225 | under round-robin every healthy upstream is picked within 2n calls of Select |
| Failover.RoundRobinIsComplete | internal/proxy/http.go:67-98 | round-robin failover connects exactly when some healthy upstream can be dialled, from any counter value |
| Failover.StickyStrategies | internal/proxy/http.go:67-98 | with hash or name, failover connects exactly when its first pick can be dialled |
| Failover.RandomIsCertain | internal/proxy/http.go:67-98 | under random, failover connects for all draws if and only if every candidate can be dialled |
| Failover.HashDoesNotFailOver | internal/proxy/http.go:67-98 | for every hash function, a two-upstream pool fails when the key maps to the one that cannot be dialled, although the other healthy one can |
| Failover.DialWithFailover | internal/proxy/http.go:53-99 | the whole call, for one caller: with a preferred name one dial and no failover, else the specified run; the pool stays sound |
| Failover.PreferredExact | internal/proxy/http.go:53-66 | a call with a preferred name connects if and only if the pool has that name and its dial succeeds; it makes exactly that one dial, or none when the name is unknown |
| Failover.TryEach | internal/proxy/http.go:67-98 | the retry loop with its attempted set yields exactly the specified run |
| Streams.Conn.Read | internal/proxy/socks5.go:57-60 | a read gives a prefix of the bytes to come, nothing only at the end |
| Streams.Conn.ReadFull | internal/proxy/socks5.go:57-60 | succeeds exactly when enough bytes come, whatever the chunks, and then consumes exactly those |
| Streams.Conn.Write | internal/proxy/socks5.go:91-93 | writes all, or the part that the connection still takes and an error |
| Socks5Server.ChooseMethod | internal/proxy/socks5.go:75-86 | no authentication if offered, else user name/password if offered, else 255 |
| Socks5Server.MethodChoiceBySet | internal/proxy/socks5.go:75-86 | the choice depends only on the set of offered methods (section 3 of RFC 1928) |
| Socks5Server.Greeting | internal/proxy/socks5.go:55-93 | version check, method list and choice, in step with the server's machine |
| Socks5Server.UserPass | internal/proxy/socks5.go:95-140 | the RFC 1929 frame, in step with the server's machine |
| Socks5Server.RequestStart | internal/proxy/socks5.go:142-178 | head of the request, with both error replies, in step with the server's machine |
| Socks5Server.ReadHost | internal/proxy/socks5.go:151-178 | the three address types, in step with the server's machine |
| Socks5Server.Request | internal/proxy/socks5.go:142-183 | the whole request, in step with the server's machine |
| Socks5Server.Handshake | internal/proxy/socks5.go:51-183 | outcome, bytes written and stream position depend only on the bytes that arrive and on how much can be written, not on the chunks; failed writes end it where the code checks them |
| Socks5Server.EnoughRoom | internal/proxy/socks5.go:87-138 | when the connection takes all that is written, the outcome is that of the machine on a connection that never breaks |
| Socks5Server.ShortRoom | internal/proxy/socks5.go:87-138 | when it does not, exactly what fits is written and the handshake fails there or had just been refused |
| Socks5Server.RunPrefix | internal/proxy/socks5.go:51-183 | bytes after those used make no difference |
| Socks5Server.ProperPrefixStarves | internal/proxy/socks5.go:51-183 | no proper prefix of a finished handshake finishes it |
| Socks5Server.RequestRuns | internal/proxy/socks5.go:142-183 | every encoded request is read back to the same host and port (sections 4 and 5 of RFC 1928) |
| Socks5Server.AuthRuns | internal/proxy/socks5.go:95-140 | every encoded RFC 1929 frame is read back to the same user name and accepted |
| Socks5Server.SessionIsRead | internal/proxy/socks5.go:51-183 | every encoded session is read back exactly, consumed to its last byte and no further, and a proper prefix yields no request |
| ServerGrammar.RunIsVerdict | internal/proxy/socks5.go:51-183 | for every input, how the handshake ends, the bytes used and the bytes written are those of the grammar written out in literal bytes, or the input ends too early and the grammar says what has been written by then |
| ServerGrammar.RequestedExactly | internal/proxy/socks5.go:51-183 | the server is asked to dial h and p for user u if and only if the input begins with the greeting, the RFC 1929 frame of u exactly when 0 is not offered and 2 is, and a version 5 request with command 1 for h and p |
| ServerGrammar.RequestsRefused | internal/proxy/socks5.go:147-178 | any other version or command gets reply 7 and an unknown address type reply 8, each right after the four bytes of the head |
| ServerGrammar.MethodsRefused | internal/proxy/socks5.go:75-93 | a client that offers neither method gets 255 after its list and nothing more is read |
| ServerGrammar.VerdictByOpening | internal/proxy/socks5.go:51-140 | without a whole greeting, and frame where one is asked for, the handshake starves or is refused; else its outcome is that of the request |
| Socks5Client.Handshake | internal/proxy/dialer.go:162-252 | outcome, bytes written and stream position depend only on the bytes that arrive and on how much can be written |
| Socks5Client.EnoughRoom | internal/proxy/dialer.go:170-218 | when the connection takes all that is written, the outcome is that of the machine on a connection that never breaks |
| Socks5Client.ShortRoom | internal/proxy/dialer.go:170-218 | when it does not, exactly what fits is written and the handshake fails with the write |
| Socks5Client.Negotiate | internal/proxy/dialer.go:163-195 | method offer and choice, in step with the client's machine |
| Socks5Client.UserPass | internal/proxy/dialer.go:254-273 | the RFC 1929 exchange and its length checks, in step with the client's machine |
| Socks5Client.RequestReply | internal/proxy/dialer.go:196-251 | request encoding and reply parsing, in step with the client's machine |
| Socks5Client.AlignedAfterReply | internal/proxy/dialer.go:219-251 | after a success reply with any reserved byte, address type 1, 3 or 4, address of that type and port, the client is connected and stands at the first byte of tunnel data exactly when the bind address is not an empty name |
| ClientGrammar.RunIsVerdict | internal/proxy/dialer.go:162-273 | for every input, the outcome, the bytes used and the bytes written are those of the grammar of RFC 1928 and RFC 1929 written out in literal bytes |
| ClientGrammar.ConnectedExactly | internal/proxy/dialer.go:162-273 | the client connects if and only if the host can be encoded and the input begins with 5 0 and a success reply, or with 5 2, any byte, 0 and a success reply where the user is not empty and both lengths are at most 255 |
| ClientGrammar.RejectedCredentials | internal/proxy/dialer.go:266-272 | a status other than 0 after the credentials ends the handshake: exactly four bytes used, nothing written after the frame, the rest of the input untouched |
| ClientGrammar.ConnectedHasWritten | internal/proxy/dialer.go:162-215 | once connected, exactly the offer, the credentials if asked for, and the request have been written |
| Socks5Session.StepKeepsInvariant | internal/proxy/dialer.go:162-273 | every step of either side, in any order and chunking, keeps the joint protocol invariant |
| Socks5Session.StepLowersMeasure | internal/proxy/socks5.go:51-214 | every step brings the session nearer its end |
| Socks5Session.NoDeadlock | internal/proxy/socks5.go:51-214 | no reachable state is stuck before both sides are done |
| Socks5Session.EveryChunkingOccurs | internal/proxy/socks5.go:57-60 | a pending read can take any part of what it still needs and has arrived, so the theorems cover every chunking |
| Socks5Session.TerminalOutcome | internal/proxy/socks5.go:201-214 | when both are done: tunnel with exactly the wanted user, host and port and empty queues, or the specific failure |
| Socks5Session.RunKeepsInvariant | internal/proxy/socks5.go:51-214 | the invariant and the step bound over every run |
| Socks5Session.SessionIsCorrect | internal/proxy/dialer.go:162-273 | over links that never break: for every host, port, credentials and dial outcome, every run is bounded, can go on to the end and ends as it should |
| Socks5Faults.StepKeepsInvariant | internal/proxy/socks5.go:51-214 | every step of either side keeps the joint invariant, whatever writes fail |
| Socks5Faults.NoDeadlock | internal/proxy/socks5.go:51-214 | whatever has failed, some step is possible until both sides are done |
| Socks5Faults.BrokenSessionIsCorrect | internal/proxy/dialer.go:162-273 | for every number of bytes the two links take: runs are bounded and can go on to the end, the server never acts on anything but the client's request, and in the end both sides hold an aligned tunnel if and only if the session can succeed and the links take all that is written, and otherwise both have failed |
| JsonPath.SplitPath | internal/freeproxy/sources.go:291-313 | the positional scan with its slice start yields the recursive splitting |
| JsonPath.SplitYieldsSegments | internal/freeproxy/sources.go:291-313 | every segment is "[*]" or a non-empty name without dot and star |
| JsonPath.SplitJoin | internal/freeproxy/sources.go:252-254 | joining segments with dots and splitting again gives the same segments |
| JsonPath.RejoiningGrows | internal/freeproxy/sources.go:252-254 | the re-joined path can be longer than the original path |
| JsonPath.SplitKeepsText | internal/freeproxy/sources.go:291-313 | splitting loses nothing but the dots |
| JsonPath.ExtractField | internal/freeproxy/sources.go:239-288 | the interpreter on path text, which re-joins and re-splits, equals the structural evaluator on the segment list, for every tree and path |
| JsonPath.EvalStar | internal/freeproxy/sources.go:247-259 | a star step is the concatenation over the array's elements, and nothing elsewhere |
| JsonPath.EvalName | internal/freeproxy/sources.go:260-267 | a name step goes to the field; a missing or null field yields nothing |
| JsonPath.YieldMeaning | internal/freeproxy/sources.go:270-288 | at the end of a path a text or number yields itself, an array the texts of the strings and numbers directly in it, anything else nothing |
| JsonPath.ExtractByPath | internal/freeproxy/sources.go:201-237 | both the two-field and the single-field form give the specified entry list |
| JsonPath.PairEntries | internal/freeproxy/sources.go:207-217 | the two-field loop pairs by rank, cut to the shorter list, first occurrences only |
| JsonPath.AddressEntries | internal/freeproxy/sources.go:220-236 | the single-field loop keeps the values with a port, first occurrences only |
| JsonPath.SingleFieldAddresses | internal/freeproxy/sources.go:220-236 | a path that is not two-field gives exactly the values it reaches that contain a colon, each once, as http proxies of the source |
| JsonPath.ParseText | internal/freeproxy/sources.go:153-174 | the matches joined as host:port, first occurrences only |
| JsonPath.EntriesDistinct | internal/freeproxy/sources.go:153-174 | entry lists have no address twice and every address offered |
| FieldPairing.PairingExact | internal/freeproxy/sources.go:204-217 | rank pairing joins texts of one element at every rank if and only if, after the first element with different numbers of texts, the name with fewer has none |
| FieldPairing.OwnPairsAreJoined | internal/freeproxy/sources.go:204-217 | and then the joined texts are the pairs that the elements make of their own texts |
| FieldPairing.LabelledMeaning | internal/freeproxy/sources.go:253-258 | the labels by which this is judged: the flat list in order, each text with an element that yields it, elements in order |
| FieldPairing.InStepPairing | internal/freeproxy/sources.go:201-218 | the same for the output of a two-field path |
| FieldPairing.TwoFieldPairing | internal/freeproxy/sources.go:201-218 | in particular, if every element has one text under each name, the output is the element-wise ip:port list with later duplicates dropped |
| FieldPairing.BuiltinPathPairing | internal/freeproxy/sources.go:201-218 | the same from the path text "list[*].ip,list[*].port" down to the entries |
| FieldPairing.MissingPortMispairs | internal/freeproxy/sources.go:201-218 | on the path text "[*].ip,[*].port", an element without a port is given the port of the next one |
| Sequences.FirstOccurrencesMeaning | internal/freeproxy/sources.go:163-172 | de-duplication keeps every element exactly once |
| Sequences.FirstOccurrencesOrder | internal/freeproxy/sources.go:163-172 | and keeps the order of first occurrences |
| RingLog.Logger.constructor | internal/freeproxy/logger.go:45-69 | an empty log; a capacity that is not positive becomes 500 |
| RingLog.Logger.Log | internal/freeproxy/logger.go:77-93 | the ring after one more record represents the history with that record appended |
| RingLog.Logger.Query | internal/freeproxy/logger.go:123-147 | the backward loop over slots computes the specified walk over the history |
| RingLog.WalkWindow | internal/freeproxy/logger.go:136-145 | the walk first crosses the last cap records newest first, then goes on into slots already read |
| RingLog.WalkAgain | internal/freeproxy/logger.go:136-145 | which records are read a second time after wrap-around |
| RingLog.UnfilteredQuery | internal/freeproxy/logger.go:123-147 | without a level: exactly the last min(limit, cap, count) records, newest first |
| RingLog.UnfilteredLength | internal/freeproxy/logger.go:123-147 | their number is the least of the limit if positive, the capacity and the count |
| RingLog.QueryReturns | internal/freeproxy/logger.go:123-147 | every record returned has the level asked for and is one of the last cap records, and there are at most limit of them, or cap when the limit is not positive or above it |
| RingLog.QueryMissesNone | internal/freeproxy/logger.go:136-145 | a query that stays below its limit has returned every one of the last cap records of the level asked for |
| RingLog.IdealOrder | internal/freeproxy/logger.go:136-145 | the answer against which queries are judged: matching records of the window at strictly falling record numbers |
| RingLog.QueryExact | internal/freeproxy/logger.go:123-147 | with a level: the newest matches of the window if and only if nothing was overwritten, or the window meets the limit, or no record that would be re-read matches |
| RingLog.QueryRepeats | internal/freeproxy/logger.go:136-145 | a log where a query returns one record twice |
| Conntrack.CloseStepKeeps | internal/conntrack/conn.go:64-69 | at most one caller passes the compare-and-swap |
| Conntrack.CloseIsSafe | internal/conntrack/conn.go:64-69 | however many goroutines call Close, whoever is about to close the channel finds it open, so it is never closed twice, and it is closed once all have returned |
| Conntrack.Entry.Close | internal/conntrack/conn.go:64-69 | closing is idempotent and keeps flag and channel in agreement |
| Conntrack.Manager.Register | internal/conntrack/conn.go:83-91 | enters the entry under its id and gives it a channel if it has none |
| Conntrack.Manager.Unregister | internal/conntrack/conn.go:94-98 | removes exactly that id |
| Conntrack.Manager.CloseAll | internal/conntrack/conn.go:136-146 | closes every registered entry |
| Pipe.StepKeepsInvariant | internal/proxy/http.go:199-243 | every step of copiers, main goroutine and closers keeps streams, counters and signals consistent |
| Pipe.PipeIsSafe | internal/proxy/http.go:199-243 | in every state of every run, per direction: delivered is a prefix of read, counter minus delivered is within one buffer of 32768 bytes and zero at the loop head; a pending send never blocks; the connections are closed only after a copier finished or the entry was closed, and pipe returns only after that and, unless the entry was closed, after both finished |
| Pipe.DeliveryLaw | internal/proxy/http.go:203-231 | a copier leaves its loop only after a read with an error or a failed write; if its source ended and no write failed, it has delivered and counted everything the source sent, in any number of buffers; if a read broke, everything read |
| Pipe.OneMoreBuffer | internal/proxy/http.go:203-214 | on open connections a copier can take a further buffer all the way and be back at its read |
| Pipe.AnyReadAnyWrite | internal/proxy/http.go:203-214 | nothing is assumed of the network: a read may return bytes together with its error, and a write may fail after any part of its buffer |
| Pipe.RunMonotone | internal/proxy/http.go:203-231 | streams only grow, and a copier that has sent its signal does nothing more, so it sends once |
| Pipe.ShutdownEnds | internal/proxy/http.go:233-243 | once the connections are closed, every step but a repeated close brings the end nearer |
| Pipe.ShutdownGoesOn | internal/proxy/http.go:233-243 | and until both copiers have exited and pipe has returned some step is possible |
| Validator.StepKeepsInvariant | internal/freeproxy/validator.go:118-161 | every step keeps semaphore, counters and result list exactly as the positions of the goroutines say |
| Validator.ProgressIsHonest | internal/freeproxy/validator.go:118-161 | in any state: at most concurrency probes (20 by default), Done <= len(Results) <= Total, both lags within concurrency, and the results so far are among the entries with the verdicts of their own probes |
| Validator.ResultIsComplete | internal/freeproxy/validator.go:66-103 | at return: the results are a permutation of the entries, each with the verdict of its probe; Done = Total; Valid is the number of probes that succeeded; semaphore empty |
| Validator.EverySlotIsUsed | internal/freeproxy/validator.go:128-134 | a goroutine can take its slot if and only if fewer than concurrency, or 20 by default, are taken |
| Validator.RunIsBounded | internal/freeproxy/validator.go:118-161 | every run ends: at most 8n + 2 steps under any schedule |
| Validator.NoDeadlock | internal/freeproxy/validator.go:118-161 | until return some step is possible, so the semaphore never blocks everybody |
| Validator.Snapshot | internal/freeproxy/validator.go:31-42 | the valid results in order |
| Crawler.KeyInjective | internal/freeproxy/crawler.go:62-63 | the joined key tells address and type apart when no type contains a bar |
| Crawler.AddAllMeaning | internal/freeproxy/crawler.go:60-70 | merging keeps what was there and adds exactly the missing keys, once each |
| Crawler.Collector.Merge | internal/freeproxy/crawler.go:59-73 | the critical section with its shared seen map is one merge of the specification |
| Crawler.Collector.Fail | internal/freeproxy/crawler.go:43-57 | a failed source adds its error and nothing else |
| Crawler.StepKeepsInvariant | internal/freeproxy/crawler.go:33-79 | every completion keeps entries, total, counts and errors in step with the sources that have completed |
| Crawler.CrawlIsTheUnion | internal/freeproxy/crawler.go:33-79 | for every completion order: keys are exactly those of the successful sources, each once; Total = len(Entries); errors are exactly those of the failed sources |
| Crawler.ScheduleIndependence | internal/freeproxy/crawler.go:33-79 | two schedules agree on keys, total and errors |
| Crawler.PairsAreTheUnion | internal/freeproxy/crawler.go:33-79 | with types free of bars, the (Addr, Type) pairs are the union, without duplicates |
| CrawlCounts.CountsSumToTotal | internal/freeproxy/crawler.go:71-72 | exactly the successful sources have a count, and with distinct names among them the counts sum to Total |
| CrawlCounts.CountsSumExact | internal/freeproxy/crawler.go:71-72 | the counts sum to Total in every complete run if and only if successful sources that share a name have no entries |
| CrawlCounts.SharedNameLoses | internal/freeproxy/crawler.go:71-72 | a run that loses a count, for every pair of sources that violates this |
| CrawlCounts.DuplicateNamesLoseCounts | internal/freeproxy/crawler.go:71-72 | for instance two sources of one name with an entry each |
| CrawlCounts.CountsAgreeExact | internal/freeproxy/crawler.go:60-72 | with distinct names, all complete runs publish the same counts if and only if no two successful sources share a key |
| CrawlCounts.CountsDependOnOrder | internal/freeproxy/crawler.go:60-72 | for instance two sources that offer the same proxy |
| Crawler.RunIsBounded | internal/freeproxy/crawler.go:33-79 | after i completions exactly i goroutines are done, so runs are no longer than the list of sources |
| Crawler.NoDeadlock | internal/freeproxy/crawler.go:33-79 | until wg.Wait returns some goroutine can complete |
| DynamicServer.Server.Start | internal/api/api.go:457-491 | refuses when free proxies are off; else cancels a runner that is still enabled and installs a fresh one: enabled, not running, AutoPool off, its interval the one asked for or 30 when that is below 10 |
| DynamicServer.Server.Stop | internal/api/api.go:493-505 | cancels the current runner, enabled or not |
| DynamicServer.Server.SetAutoPool | internal/api/api.go:525-531 | sets the switch of the current runner only |
| DynamicRunner.RequestMeaning | internal/api/api.go:456-531 | a request changes only the current runner: start and stop cancel it, the AutoPool request sets its switch; a start without free proxies changes nothing |
| DynamicRunner.StartedRunner | internal/api/api.go:481-491 | a start adds one runner, current and enabled, with AutoPool off and its first cycle still to come |
| DynamicRunner.PoolOpMeaning | internal/pool/pool.go:88-116 | the rest of the program adds under new names only, removes exactly the upstreams of a name in order, and sets health by name |
| DynamicRunner.StepKeepsInvariant | internal/api/api.go:456-682 | every request, every change of the pool by the rest of the program and every step of every loop, live or cancelled, keeps flags, reports, pool names and accounting consistent |
| DynamicRunner.OneLiveRunner | internal/api/api.go:456-510 | in every run: Enabled exactly when not cancelled, at most one such runner and it is s.dynamic, interval at least 10, Running only while a cycle is in progress |
| DynamicRunner.CycleAccounting | internal/api/api.go:562-682 | every published LastRun has Added <= Valid <= Fetched, Added = 0 with an Error, and Added is the number of steps of that cycle in which the pool grew, whatever else changed the pool in between |
| DynamicRunner.EntersMeaning | internal/api/api.go:656-671 | when the pool grows in a step of a loop, it grows by a proxy of that loop's batch, under a name that was free |
| DynamicRunner.TwoOffersAreOneRound | internal/api/api.go:656-671 | the two offers of a proxy, with nothing in between, are one round of the batch loop |
| CycleTrace.GrowthWasDecided | internal/api/api.go:648-654 | over every run: if the pool grew by a cycle, that cycle was about to decide in an earlier state with AutoPool on |
| CycleTrace.NothingWithoutAutoPool | internal/api/api.go:648-654 | so a cycle with AutoPool off throughout adds nothing |
| CycleTrace.AutoPoolWasRequested | internal/api/api.go:525-531 | and AutoPool is on only by a request made while that runner was the current one |
| CycleTrace.EnteredWasValid | internal/api/api.go:625-671 | what a cycle puts into the pool is the entry of a result with a valid verdict of that cycle's validation, without credentials, healthy and under a name that was free |
| CycleTrace.ResultsGoBack | internal/api/api.go:568-625 | the results of a cycle are the verdicts of the probes on exactly the entries that its own crawl returned, the cycle not having been cancelled in between |
| CycleTrace.NothingTestedTwice | internal/api/api.go:568-610 | a cycle validates exactly as many entries as its crawl fetched, at least one, and none of one type and address twice |
| CycleTrace.AutoPoolOffersAll | internal/api/api.go:654-676 | once a cycle that decided with AutoPool on has published its report, each proxy of its batch has entered the pool by it, or its own name and then a suffixed one were taken when offered |
| CycleTrace.ReportIsTrue | internal/api/api.go:566-682 | every published report states the size of that cycle's crawl, the number of valid results unless it ended before validation, "cancelled" only when the loop was, and "no proxies fetched" exactly for an empty crawl that was not cancelled |
| Cancellation.CancelledAddsOneBatch | internal/api/api.go:562-682 | after cancellation the pool grows only by steps of the cycle in flight, only if it had passed its second check, and by at most one upstream for each proxy of its batch still to be dealt with |
| Cancellation.LateCycleAddsNothing | internal/api/api.go:535-682 | the pool does not grow by a cycle begun after cancellation |
| Cancellation.CancelledStartsNoValidation | internal/api/api.go:585-625 | a cancelled runner validates nothing but the entries whose validation it had already begun |
| Cancellation.StoppedMayShowRunning | internal/api/api.go:535-566 | from any state of any run, a cancelled loop can come to show Running if and only if it has not returned |
| Cancellation.StoppedAtOnce | internal/api/api.go:535-566 | for instance a loop stopped before its first cycle |
| Cancellation.ExitsFromSelect | internal/api/api.go:545-554 | a loop returns only from its select and only when it has been cancelled |
| Cancellation.CanEnd | internal/api/api.go:535-560 | from every state of every run a cancelled loop can come to its end |
| BatchAdd.AddBatch | internal/api/api.go:284-299 | the loop with its suffix retry gives the specified pool and counts exactly the upstreams that entered |
| BatchAdd.OfferOne | internal/api/api.go:656-670 | one proxy enters under its own name, else under the suffixed one, else not at all |
| BatchAdd.ReplaceFirstMeaning | internal/api/api.go:657 | the first colon of an address, and no other, becomes a dash |
| BatchAdd.BatchAppends | internal/api/api.go:654-676 | the pool is kept and extended by upstreams with names of their own, made from proxies of the batch in its order, each proxy used once at most: its type and address, no credentials, healthy, named prefix-type-address with the first colon a dash, with or without the suffix |
| BatchAdd.FreshBatchEntersWhole | internal/api/api.go:654-676 | distinct new names: the whole batch enters under them, in order |
| Config.PoolConfig.Validate | internal/config/config.go:109-146 | accepts exactly the valid configurations, reports the first faulty entry, fills in the default strategy |
| Config.KnownStrategies | internal/config/config.go:117-121 | the strategies accepted are random, round-robin, hash and name |
| Config.FaultMeaning | internal/config/config.go:122-144 | which fault an entry has: the first of no name, a name used by an earlier entry, an unknown type, no server, a port outside 1 to 65535; the last two not for direct entries |
| Config.NoFaultMeansValid | internal/config/config.go:122-144 | no entry has a fault exactly when all are well formed and no name occurs twice |
| HostPort.SplitHostPortMeaning | internal/api/api.go:739-745 | cuts at the last colon; without one both parts are empty |
| HostPort.SplitJoined | internal/api/api.go:739-745 | a port without a colon is split off again, whatever the host |
| HostPort.ScanDecimal | internal/api/api.go:333-334 | the text of a port scans back to it |
| HostPort.ScanSkips | internal/api/api.go:333-334 | blanks before a port, a plus sign, and whatever follows its digits make no difference to the scanned number |
| HostPort.ScanIntText | internal/api/api.go:333-334 | the text of every 64-bit integer scans back to it, negative ones included |
| Persistence.PlainAddressMeaning | internal/api/api.go:332-334 | the addresses that survive are exactly a colon-free host joined with the text of a port in range |
| Persistence.EntrySurvives | internal/api/api.go:325-343 | an upstream gives a valid entry that reloads to itself exactly when it is persistable |
| Persistence.SaveReload | internal/api/api.go:325-345 | the saved list passes validation and reloads to the same names, types, addresses, credentials and order if and only if the pool is not empty and all upstreams are persistable |
| Persistence.ReloadSave | internal/pool/pool.go:53-66 | loading a valid configuration and saving it gives it back exactly when servers have no colon and direct entries are plain |
| Persistence.StorableIsPersistable | internal/pool/pool.go:53-66 | such entries make upstreams that survive |
| Persistence.BracketsDouble | internal/pool/pool.go:60-62 | a server with a colon comes back with a second pair of brackets |
| Persistence.RunStaysPersistable | internal/pool/pool.go:88-116 | runs that add only persistable upstreams keep the pool persistable |
| Persistence.BatchStaysPersistable | internal/api/api.go:654-676 | auto-added proxies with plain addresses and known types survive a restart |
| Persistence.SelectionSurvives | internal/pool/pool.go:189-236 | with all healthy, a call of Select picks the same from the reloaded pool, whose counter starts at 0, if and only if it does not follow a pin to a later upstream and does not take a round-robin ticket that is no multiple of the pool size; hash keeps every key |
| Persistence.PinIsLost | internal/pool/pool.go:196-235 | for instance a pool pinned to its second upstream |
| Persistence.CounterIsLost | internal/pool/pool.go:223-225 | or a round-robin pool of two after an odd number of calls |
| Persistence.RotationSurvives | internal/pool/pool.go:223-225 | every later round-robin call picks the same position if and only if the counter stood at 0, or the pool size divides both the counter and 2^64 |
| Persistence.RebuildList | internal/api/api.go:325-343 | the loop over the listed upstreams builds the saved list |
| Persistence.LoadPool | internal/config/config.go:90-106 | a loaded list becomes a sound pool with its counter at 0 exactly when it is valid; an empty strategy becomes random |
| Persistence.SaveAndReload | internal/api/api.go:308-345 | end to end on the objects: the reloaded pool has the same upstreams exactly when all are persistable |
| PortText.Uint16ToStr | internal/proxy/util.go:29-42 | the five-byte buffer filled from the back gives the shortest decimal text, and its index stays inside |
| PortText.ParsePort | internal/proxy/http.go:253-268 | the accumulator loop with 64-bit wrap-around computes the wrapped value or the default |
| PortText.PortRoundTrip | internal/proxy/http.go:253-268 | the text of a port parses back to it, whatever the default |
| PortText.ParsePortExact | internal/proxy/http.go:253-268 | right for every string except digit strings that overflow into the port range, and wrong for those |
| PortText.OverflowIsAccepted | internal/proxy/http.go:253-268 | the text of 2^64 + 1 is taken as port 1 |
| DecimalText.DecimalDenotes | internal/proxy/util.go:29-42 | decimal text denotes the number and has no leading zero |

## Left out

- Sockets, TLS, timeouts, accept loops, HTTP request parsing, YAML, regular expressions and JSON decoding: dials are oracles, connections are byte queues, JSON is a datatype.
- IP text: addresses are 16 bytes, as `net.ParseIP` gives them; text formatting of addresses is not part of this model.
- The text of JSON numbers: a number carries the text that "%.0f" gives it.
- The uniformity of the random strategy and the values of FNV-1a: the draw and the hash function are parameters.
- SetStrategy, SetPinnedName, Snapshot and Get of the pool: single assignments and lookups, easy members.
- `Upstream.Name` as a field that the batch loop rewrites before its second try: the model makes a second upstream, since the first one never entered the pool.
- Failover.RoundRobinIsComplete: not claimed with competing callers, who can take the tickets of the missing upstream; safety with them is `Failover.FailoverIsSafe`.
- Failover.DialWithFailover: proved for one caller; interference is covered on the specification, where the environment answers every read.
- Socks5Session.SessionIsCorrect: the links never break here; `Socks5Faults.BrokenSessionIsCorrect` covers those that do.
- Streams.Conn.Write: a connection breaks after some number of bytes and stays broken; the bytes it took before are delivered.
- Pipe.PipeIsSafe: closing both connections at the end is one step; the program closes them one after the other.
- Streams.Conn.Read: errors other than the end of input are not told apart.
- Validator.ProgressIsHonest: the appends are atomic steps; nothing is claimed about memory ordering between the lock of Snapshot and the local lock of the workers (internal/freeproxy/validator.go:33, internal/freeproxy/validator.go:123).
- Validator.ResultIsComplete: ValidateBatch is the same machine without the two counters; latency and error text of a result are not modelled.
- Crawler.CrawlIsTheUnion: an enabled source may complete as soon as the crawl starts, which covers the loop that starts the goroutines one by one.
- DynamicRunner.CycleAccounting: pool names and health are values here; the slice updated in place and its index are `BatchAdd.AddBatch` and `Pool.Pool.Add`, for a single caller.
- The ticker: a tick may come at any time the loop is idle; log lines, the cached entries and the task identifier of a cycle are left out.
- FieldPairing.PairingExact: about where the joined texts come from; texts of different elements can still be equal by chance.
- basicAuthHeader, which does not encode in base64: nothing is claimed about section 2 of RFC 7617.
- End-to-end transparency across the HTTP handshakes, whose buffered readers may hold bytes already read.
- The 64-bit wrap of the byte counters and of the log totals; the log file.
- Web pages, translations, REST routing, method checks and JSON encoding of responses.
