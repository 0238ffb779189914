# Verification of the prototypes

Models, in Dafny 4.11, of seven of the repository's prototypes, with proofs over whole runs. `dafny verify
dfyconfig.toml` checks everything.

Concurrent programs are step systems: a state, a datatype of atomic actions, `Enabled` and `Apply`, and a run is any
sequence of actions each of which is enabled in turn. A theorem "for every run" quantifies over all such sequences.
Beside the step systems stand classes whose methods have the control flow of the source's functions and are proved
against the same specification functions.

A lemma that requires `Inv` holds in every reachable state: each module proves its `Inv` of the initial state and of
every action (`InitInv` and `RunInv`; `EmptyInv` and `ServeInv` in `Chat`).

| file | what it models |
|---|---|
| `SeatTable.dfy`, `Reservation.dfy` | airlineCheckin: seat booking under row locks; the specification is booking one user at a time |
| `ChannelPool.dfy`, `BlockingQueue.dfy`, `ValueReceiver.dfy` | connectionPool and blockingQ: the pool as one channel, the token-and-mutex queue that refines it, and what its value receivers do |
| `LoadBalancer.dfy` | LoadBalancer: rotation, serial and interleaved |
| `BloomFilter.dfy` | bloomFilter: cyclic windows of bits |
| `EchoLoop.dfy` | redis: the kqueue loop over a small kernel |
| `Chat.dfy`, `ChatServer.dfy`, `ChannelRace.dfy`, `Pages.dfy` | slack, Go and C++: tables, handlers, message history |
| `WsRegistry.dfy`, `Heartbeat.dfy`, `Presence.dfy` | slack: websocket maps, the heartbeat message, the online test |
| `Options.dfy`, `Bytes.dfy`, `Sums.dfy`, `Modular.dfy` | shared: optional values, bytes, sums over sequences, remainders |

Where a property that the programs are written for does not hold of the code, the model keeps the code and states
exactly when it does hold: value receivers in blockingQ (`ValueReceiver.SharingExactly`), unsynchronised selection in
the balancer (`LoadBalancer.BalancedExactly`, `LoadBalancer.DialsCountedExactly`), one read per edge and closing unread
at an end of file in the event loop (`EchoLoop.AlwaysAttendedExactly`, `EchoLoop.LongMessageStalls`,
`EchoLoop.ClosingEarlyLosesBytes`), interleaved createChannel in Go (`ChannelRace.OneChannelExactly`), second rows of a
user name (`Chat.EstablishedChannelStays`, `Chat.CreateUserTwice`), tied timestamps in the message history
(`Pages.AlwaysReturnedExactly`), closed connections in the Go map (`WsRegistry.GoNeverStaleExactly`), the id 0 sentinel
(`SeatTable.SentinelHarmlessExactly`, `Reservation.AllBookedIsTrueExactly`), overlapping calls
(`LoadBalancer.WithoutOverlapIsSerial`, `ChannelRace.OneAfterTheOther`), and the two heartbeat parsers
(`Heartbeat.ParsersAgreeExactly`).

Assumptions about what the sources do not show:

- airlineCheckin: ids are distinct and the locking read scans rows in ascending id order, taking the lock of a row
  before it reads it. The lock of a row that does not match is kept or released at the choice of the database, which
  covers both InnoDB isolation behaviours. The schema itself is not in the repository. Any transaction may be rolled
  back at any of its calls.
- blockingQ: `BlockingQueue` models Get and Put with one shared queue, which is what they are written for; the
  source's value receivers are modelled separately in `ValueReceiver`. Objects are of any type, because the source's
  `obj` is an empty struct.
- redis: the kernel reports a descriptor at most once a batch, a client descriptor only with an edge and something to
  read or an end of file, and gives a new connection an unused descriptor. Writes are full or fail.
- slack: handlers are atomic (Go one request at a time, C++ under dbMutex) except in `ChannelRace`, inserts can fail at
  any point, foreign keys are those of slack/brainstroming.md. Requests to both servers may be mixed on one database.
  The user table is not in the repository: its id is taken for an auto-increment primary key, for which an inserted 0
  asks for the next number, and its names are compared character by character. The queries for a name have no order:
  any row of the name may come first.
- Presence: times are readings of a clock in ticks; storing one in C++ truncates it to whole seconds, and
  last_timestamp is taken to keep Go's fraction of a second. In a column of whole seconds that rounds up, Go could
  find a user online that C++ does not.

## Model

| member | source | states |
|---|---|---|
| `SeatTable.Airline.ReserveEmptyForUser` | airlineCheckin/main.go:34-85 | one transaction without interference books the first empty seat by id for its user and prints that seat, or prints that all are booked; any call that fails, the commit included, leaves the table as it was, and the failure of a query, of the scan of a found row or of an attempted update, but no other, is reported as an error |
| `SeatTable.Airline.MakeBooking` | airlineCheckin/main.go:86-116 | the users are read into a list (an unreadable row means nobody is booked) and, run one after the other, their transactions give the sequential allocation of exactly that list |
| `SeatTable.SequentialClosedForm` | airlineCheckin/main.go:43-83 | booking one user at a time gives user k the k-th initially empty seat by id while there is one, changes no other row, and leaves exactly the remaining empty seats |
| `SeatTable.SequentialFillsPrefix` | airlineCheckin/main.go:43-83 | the booked rows are a prefix, by id, of the initially empty ones and no name is overwritten |
| `SeatTable.SentinelHarmlessExactly` | airlineCheckin/main.go:57-67 | using 0 for "no row" is harmless for every list of users if and only if no empty seat has id 0 |
| `SeatTable.StopsAtIdZero` | airlineCheckin/main.go:57-82 | with an empty seat of id 0 the code books the empty seats before it, in order, and then nobody |
| `Reservation.RunInv` | airlineCheckin/main.go:34-115 | every action keeps the invariant: what each transaction knows of the table, who may hold which lock, the wait-group count, the log, and equality with sequential booking |
| `Reservation.EveryRunIsSequential` | airlineCheckin/main.go:34-83 | for any users, seats, interleaving and rollbacks, the committed table and every commit's outcome (seat or "all booked") are those of booking one user at a time in commit order; nobody commits twice |
| `Reservation.KthCommitGetsKthEmptySeat` | airlineCheckin/main.go:43-83 | the k-th commit of any run books the k-th empty seat by id, or none when all are gone; the booked rows are always a prefix of the initially empty ones |
| `Reservation.AllBookedIsTrueExactly` | airlineCheckin/main.go:80-83 | in every run, when a transaction is about to print that all seats are booked, before its commit, all are booked if and only if no initially empty seat has id 0 |
| `Reservation.CommittedNamesStay` | airlineCheckin/main.go:67-83 | from any protocol state, no continuation of the run overwrites a committed name |
| `Reservation.OneSelectionAtATime` | airlineCheckin/main.go:43-68 | at any moment at most one transaction holds a selected or updated seat |
| `Reservation.UpdateNeverBlocks` | airlineCheckin/main.go:67-79 | after the locking read found a seat, the update always finds that row and never waits for a lock |
| `Reservation.LocksHeldToTheEnd` | airlineCheckin/main.go:43-83 | a row lock is given back exactly when its transaction commits or rolls back, and taken only by a locking read, for the seat it selects or when the database keeps the lock |
| `Reservation.RollbackLeavesNothing` | airlineCheckin/main.go:48-77 | a transaction can be rolled back at any point after it began, and then leaves no lock, no name and no log entry |
| `Reservation.NoWaitCycle` | airlineCheckin/main.go:43-83 | in no reachable state do transactions wait for each other's row locks in a circle, because locks are taken in ascending id order |
| `Reservation.NeverStuck` | airlineCheckin/main.go:110-115 | in every reachable state either all workers have finished or some action other than a rollback is possible |
| `Reservation.EveryRunEnds` | airlineCheckin/main.go:34-115 | no run is longer than users * (rows + 4) + users actions, whatever the interleaving and the rollbacks |
| `Reservation.WaitReleasedExactlyWhenAllFinished` | airlineCheckin/main.go:98-115 | once every goroutine is started, the wait group is at zero if and only if every worker has finished |
| `Reservation.FinalCount` | airlineCheckin/main.go:86-116 | when all workers finish without rollback, exactly min(users, initially empty seats) seats were booked |
| `ChannelPool.ConnectionPool.constructor` | connectionPool/temp.go:24-33 | the loop fills the channel with the new connections in order, up to the capacity |
| `ChannelPool.ConnectionPool.Get` | connectionPool/temp.go:35-37 | Get takes the connection that has been in the channel longest |
| `ChannelPool.ConnectionPool.Put` | connectionPool/temp.go:39-41 | Put appends the connection to the channel |
| `ChannelPool.RunInv` | connectionPool/temp.go:24-60 | every action keeps free + held = capacity, the multiplicity of every connection, and the order of leaving |
| `ChannelPool.NothingLost` | connectionPool/temp.go:24-41 | in every run of Get-then-Put workers each connection is in the pool or in a hand as often as it was created, and connections leave in the order they entered |
| `ChannelPool.Exclusive` | connectionPool/temp.go:35-41 | in every run, with distinct connections, a held one is not in the pool and in no other hand |
| `ChannelPool.SendNeverBlocks` | connectionPool/temp.go:39-41 | the send in Put always finds room |
| `ChannelPool.BoundedHolders` | connectionPool/temp.go:46-60 | at most as many workers hold a connection as the pool has |
| `ChannelPool.EveryoneFinishes` | connectionPool/temp.go:46-60 | with at least one connection every run can go on until all workers have finished, and has at most two actions a worker |
| `BlockingQueue.BlockingQ.constructor` | blockingQ/main.go:40-52 | the loop leaves one token per object, the objects in order |
| `BlockingQueue.BlockingQ.Get` | blockingQ/main.go:21-30 | with a token there is an object, and Get removes the head (shared receiver) |
| `BlockingQueue.BlockingQ.Put` | blockingQ/main.go:32-38 | Put appends the object and returns the token (shared receiver) |
| `BlockingQueue.RunInv` | blockingQ/main.go:21-52 | every action keeps the two counts tokens + token holders = size and |Q| + object holders = size, the mutex owner, and that what was read at the head is still the head |
| `BlockingQueue.NeverCrashes` | blockingQ/main.go:22-29 | Q[0] and Q[1:] are in bounds whenever they are evaluated, in every interleaving of channel, mutex and slice operations (shared receiver) |
| `BlockingQueue.MutualExclusion` | blockingQ/main.go:24-35 | at most one worker is between Lock and Unlock |
| `BlockingQueue.BoundedTokens` | blockingQ/main.go:40-52 | at most size workers are between receiving a token and sending it back |
| `BlockingQueue.SendNeverBlocks` | blockingQ/main.go:37 | the send that ends Put always finds room |
| `BlockingQueue.RefinesChannelPool` | blockingQ/main.go:21-38 | every run of the token queue is, action by action, a run of the channel pool over the same objects (an action is one pool action or invisible) |
| `BlockingQueue.FirstInFirstOut` | blockingQ/main.go:22-37 | in every interleaving (popped) ++ Q == (initial) ++ (appended) |
| `BlockingQueue.ObjectsConserved` | blockingQ/main.go:21-38 | in every run no object is lost or duplicated; with distinct objects a held one is not in the queue and in no other hand |
| `BlockingQueue.EveryoneFinishes` | blockingQ/main.go:60-72 | with size at least 1 every run can go on until all workers have finished, and has at most nine actions a worker |
| `ValueReceiver.EveryoneGetsTheFirst` | blockingQ/main.go:21-38 | as written, with value receivers, every Get returns the object that was first in the new queue, the shared slice never changes, nothing goes out of bounds, and the tokens still bound the holders |
| `ValueReceiver.EveryoneFinishes` | blockingQ/main.go:60-72 | as written, with size at least 1 every run can go on until all workers have finished, and has at most four actions a worker |
| `ValueReceiver.SharingExactly` | blockingQ/main.go:21-38 | as written, no object is ever in two hands in any run if and only if there is at most one object or at most one worker |
| `LoadBalancer.LB.constructor` | LoadBalancer/main.go:25-33 | a new balancer has zero totals and the last server marked as used |
| `LoadBalancer.LB.Proxy` | LoadBalancer/main.go:35-45 | one selection without interference moves to the next server cyclically and adds one to that server's total only |
| `LoadBalancer.LB.Serve` | LoadBalancer/main.go:25-45 | n serial selections on a new balancer of k servers use server j % k for selection j and leave server i the total (n + k - 1 - i) / k |
| `LoadBalancer.SharesDifferByAtMostOne` | LoadBalancer/main.go:37-43 | after any number of serial selections any two totals differ by at most one |
| `LoadBalancer.EachServerOncePerRound` | LoadBalancer/main.go:37-43 | any k selections in a row use each server exactly once |
| `LoadBalancer.RunInv` | LoadBalancer/main.go:35-45 | every action keeps LastUsed and every stored index in range, one worker in the mutex, and totals equal to the counts made |
| `LoadBalancer.CountsAreExact` | LoadBalancer/main.go:37-45 | with Proxy calls interleaved at every load, store, lock and increment, LastUsed stays in range, each total is the number of workers that counted that server, and the totals sum to all increments made |
| `LoadBalancer.WithoutOverlapIsSerial` | LoadBalancer/main.go:35-45 | a run in which no two calls overlap is serial selection: after m counted calls server i has the total (m + k - 1 - i) / k and every call dials the server it counted |
| `LoadBalancer.EveryoneFinishes` | LoadBalancer/main.go:35-45 | every run can go on until all calls have chosen a backend, and has at most seven actions a call |
| `LoadBalancer.UnboundedImbalance` | LoadBalancer/main.go:37-45 | for every n some run of n calls counts all of them on server 0 and none elsewhere |
| `LoadBalancer.BalancedExactly` | LoadBalancer/main.go:37-45 | totals differ by at most one in every interleaving if and only if there is one server or at most one call |
| `LoadBalancer.CountedIsNotDialled` | LoadBalancer/main.go:42-45 | for any two or more servers and calls some run has a call that counts server 0 and goes on to dial backend 1 |
| `LoadBalancer.DialsCountedExactly` | LoadBalancer/main.go:37-45 | in every interleaving each call dials the server it counted, if and only if there is one server or at most one call |
| `BloomFilter.Hash` | bloomFilter/main.go:16-22 | hash function i of an item is its byte sum plus i |
| `BloomFilter.ByteSumMeaning` | bloomFilter/main.go:16-22 | the byte sum of a single byte is its value and that of a concatenation the sum of the parts |
| `BloomFilter.Filter.constructor` | bloomFilter/main.go:9-15 | a new filter has no bit set |
| `BloomFilter.Filter.Add` | bloomFilter/main.go:23-28 | the bits are exactly the union of the cyclic windows of all items added so far |
| `BloomFilter.Filter.Contains` | bloomFilter/main.go:29-37 | the answer is true if and only if the item's window is covered by the windows of the added items |
| `BloomFilter.AddedIsContained` | bloomFilter/main.go:23-37 | every added item is contained |
| `BloomFilter.PositiveStaysPositive` | bloomFilter/main.go:23-37 | a positive answer never turns negative |
| `BloomFilter.BitsDependOnSumsOnly` | bloomFilter/main.go:16-28 | the bits depend only on the set of byte sums modulo size: order and repetition do not matter |
| `BloomFilter.AnagramsCollide` | bloomFilter/main.go:16-22 | anagrams have the same byte sum, so they cannot be told apart |
| `BloomFilter.OneItemExactly` | bloomFilter/main.go:16-37 | with one item y added, x is reported if and only if there is no hash function, there are at least size of them, or the byte sums are congruent modulo size |
| `EchoLoop.EventLoop.HandleBatch` | redis/main.go:118-174 | the loop over a batch closes, accepts and registers, or reads and echoes, event by event, as the fold of the single-event function does |
| `EchoLoop.EventLoop.AcceptConn` | redis/main.go:130-151 | accept, then register; a connection that cannot be registered is closed |
| `EchoLoop.EventLoop.Echo` | redis/main.go:153-172 | one read of at most 1024 bytes and one write of what was read; an error or nothing read closes the descriptor |
| `EchoLoop.BatchIsARun` | redis/main.go:118-174 | what the batch loop computes is the run of the system that handles the pending events one by one |
| `EchoLoop.RunInv` | redis/main.go:102-175 | every action keeps the descriptor table, the pending events and the echoed bytes consistent |
| `EchoLoop.EventsHitTheirConnection` | redis/main.go:118-174 | in every run each event not handled yet is on the connection it was raised for, although descriptors are closed and reused inside a batch |
| `EchoLoop.ClientEventOutcome` | redis/main.go:122-172 | a client event releases and deregisters its descriptor exactly when the client is gone or the read fails; otherwise it reads all unread bytes up to 1024, at least one, and writes exactly these; nothing else changes |
| `EchoLoop.ListenerEventOutcome` | redis/main.go:130-151 | in every run a listener event that is no end of file, when accept succeeds, takes exactly one connection from the backlog as a new one that has sent nothing, open and registered if and only if its registration succeeds; when accept fails nothing changes, and older connections and descriptors never do |
| `EchoLoop.OutstandingIsReportable` | redis/main.go:102-120 | after every batch the listener and each open connection with an edge and something to read or an end of file can be reported |
| `EchoLoop.ClosedClientIsNoticed` | redis/main.go:122-128 | in every run an open connection whose client has closed has an edge or an end-of-file event, so its descriptor is not forgotten |
| `EchoLoop.SentIsWhatWasDelivered` | redis/main.go:153-160 | over any run the bytes counted as sent on a connection are those its client sent, in order |
| `EchoLoop.ConnectionsConserved` | redis/main.go:102-174 | accepted plus waiting connections are exactly those that came, in every run |
| `EchoLoop.OpenIsRegistered` | redis/main.go:123-164 | in every reachable state the open client descriptors are exactly the registered ones |
| `EchoLoop.OpenUntilItsOwnEnd` | redis/main.go:118-174 | in every run a connection loses its descriptor and registration exactly by an event raised for it that ends it (end of file or failed read), never by what is done for another descriptor |
| `EchoLoop.EchoIsPrefix` | redis/main.go:153-172 | in every run what a connection got back is the bytes read of what its client sent if and only if no write on it failed |
| `EchoLoop.WakeKeptExactly` | redis/main.go:123-172 | with edge-triggered registration, for each connection separately, an action keeps its unread bytes attended to (open, and an edge or event outstanding) if and only if it leaves none behind: no read takes 1024 of more bytes without a newer edge, no close at an end of file or failed read precedes the reading, and no bytes come after the close |
| `EchoLoop.AlwaysAttendedExactly` | redis/main.go:123-172 | over a whole run the unread bytes of a connection are attended to at every moment if and only if no action leaves some of them behind |
| `EchoLoop.EverythingIsEchoed` | redis/main.go:102-175 | in a run that leaves no bytes of a connection behind, open or closed, whenever it is closed or has no edge and no event outstanding, its client has got back all that it sent if and only if no write to it failed; edges and losses of other connections do not matter |
| `EchoLoop.ShortMessagesAreEchoed` | redis/main.go:123-172 | a client that keeps at most 1024 bytes outstanding and closes only after its answers gets everything back in this sense, whatever other clients do, unless the registration or a read of its connection fails |
| `EchoLoop.ClosedForGood` | redis/main.go:123-164 | once the loop has closed a connection no continuation of the run reads or answers a byte of it, whatever the client sent |
| `EchoLoop.SilentUntilClientActs` | redis/main.go:144-160 | a connection with unread bytes that are not announced gets nothing back in any continuation until its client sends again or closes |
| `EchoLoop.LongMessageStalls` | redis/main.go:144-172 | a client that sends one message of more than 1024 bytes and waits gets its first 1024 bytes back and the rest is left unannounced |
| `EchoLoop.ClosingEarlyLosesBytes` | redis/main.go:122-128 | a client that sends a message of any length and closes before the loop looked gets nothing back, with no call failing: the event with end of file closes the descriptor unread |
| `Chat.ServeInv` | slack/chat_server.cpp:141-359 | every handler of either server, however far its inserts get, keeps ids fresh, references intact, at most two memberships a channel and at most one shared channel a pair |
| `Chat.OneChannelPerPair` | slack/chat_server.cpp:191-254 | after any run of requests to either server, inserts failing anywhere, two distinct users share at most one channel |
| `Chat.PickIsTheSharedChannel` | slack/chat_server.cpp:206-220 | for two distinct users the join finds their shared channel and nothing else, so first row and last row are that channel |
| `Chat.PicksAgree` | slack/main.go:138-161 | Go's last row and C++'s first row are the same channel, and (a, b) and (b, a) give the same |
| `Chat.EstablishedChannelStays` | slack/main.go:98-233 | once two distinct users, each the only one of its name, share a channel, every later createChannel of the two names, on either server, from either side and whatever rows the unordered name queries return first, finds it and changes no table, if and only if no second row of either name is added in between |
| `Chat.KnownHeartbeatsAddNoRow` | slack/asset/message.html:41-56 | heartbeats under ids that were known before the run or returned by an earlier createUser of it, as the page sends them, never add a second row of a nonempty name, whatever other requests come |
| `Chat.NamesAreUnique` | slack/asset/message.html:41-56 | from empty tables, if every heartbeat is under an id returned by an earlier createUser, every nonempty name has at most one row after any run |
| `Chat.OpenedIsShared` | slack/main.go:164-210 | a createChannel that goes through opens a new channel that the two users share |
| `Chat.OpensExactly` | slack/chat_server.cpp:202-263 | createChannel opens a channel if and only if both users exist and have none in common and no insert fails; then the first message is stored before the receiver is told |
| `Chat.StepByStep` | slack/main.go:164-210 | channel, first message and two memberships are inserted in this order, each if and only if that many inserts go through and the users referred to exist; the receiver is told once, by Go when the message is stored and by C++ when all is |
| `Chat.FailedSharesNothing` | slack/main.go:164-210 | a createChannel that fails half-way puts no two users together in a channel |
| `Chat.AnnouncedWithoutChannelExactly` | slack/main.go:194-210 | the receiver is told of a channel that was not completed if and only if the server is Go and the message insert, but not both memberships, went through |
| `Chat.CreateUserExactly` | slack/chat_server.cpp:144-174 | createUser answers with a row of the name when a nonempty name has one, changing nothing; otherwise it inserts one row under a new id, and fails if and only if that insert does |
| `Chat.CreateUserTwice` | slack/main.go:51-83 | createUser returns the id of the first call on every later call, whichever row of the name comes first, if and only if the name is not empty, had at most one row, and no second row of it is added in between |
| `Chat.HeartbeatExactly` | slack/chat_server.cpp:428-441 | after a heartbeat its id has a row, with its old name or else the name of the heartbeat, no other row changes, and the same heartbeat again changes nothing; id 0 gets a new row each time |
| `Chat.OnlyTheOther` | slack/main.go:281-303 | in the channel of two distinct users the members other than one of them are exactly the other one |
| `Chat.MessageExactly` | slack/chat_server.cpp:299-348 | nothing is emitted that was not stored first; a message is refused if and only if the server is C++ and the text empty, stored if and only if not refused, user and channel exist and the insert goes through, accepted if and only if besides the members can be read; in the channel of two distinct users the other one alone is told the sender's name and the text, after storing, if and only if it is accepted |
| `Chat.ChannelRowsMeaning` | slack/main.go:213-219 | the rows of the history query are the stored messages of the channel |
| `Chat.AcceptedIsReturned` | slack/main.go:211-231 | with strictly increasing timestamps, after a message of one of two users is accepted in their channel, every later createChannel of the two names, on either server and from either side, answers with the history of that channel if and only if no second row of a name was added; that history is exactly the newest ten rows, newest first, and has the message if and only if fewer than ten newer ones were inserted in the channel |
| `Chat.AlwaysInHistoryExactly` | slack/chat_server.cpp:265-280 | with any timestamps a message is in every possible answer of the last-ten query if and only if fewer than ten other messages of the channel are at least as new |
| `Pages.OneLegalPage` | slack/main.go:213-231 | with strictly increasing timestamps "order by created_at desc limit 10" has exactly one answer: the ten latest inserted rows, latest first |
| `Pages.ReturnedUntilTenNewer` | slack/main.go:213-231 | with strictly increasing timestamps a row is returned if and only if fewer than ten rows were inserted after it |
| `Pages.AlwaysReturnedExactly` | slack/chat_server.cpp:266-268 | with ties, a row is in every answer the database may give if and only if fewer than ten other rows are at least as new |
| `ChatServer.Handlers.CreateUser` | slack/chat_server.cpp:144-174 | the handler ends in the tables, the reply and the effects that module Chat computes, and keeps the invariant |
| `ChatServer.Handlers.PickChannel` | slack/main.go:151-164 | Go's loop over all rows keeps the last, C++ looks at the first; 0 if and only if there is no row |
| `ChatServer.Handlers.CreateChannel` | slack/main.go:98-233 | lookup, then either the existing channel or the four inserts, each of which may fail, with the effects in order |
| `ChatServer.Handlers.SendMessage` | slack/chat_server.cpp:294-348 | validate, insert, read the members, emit to the others, in this order |
| `ChatServer.Handlers.OtherMembers` | slack/chat_server.cpp:319-333 | the loop collects the channel's members other than the sender, in row order |
| `ChatServer.Handlers.Upsert` | slack/chat_server.cpp:428-441 | a heartbeat of a known id leaves the user table alone, one of a new id inserts it, whatever the sign of the id; id 0 gets the next free one |
| `ChatServer.SentToTheOthersConnections` | slack/chat_server.cpp:101-118 | a message of a in the channel of a and b is tried once on each connection listed for b and on no other |
| `ChatServer.SentToTheOthersLatest` | slack/main.go:337-344 | a message of a in the channel of a and b is sent by Go exactly once, on the connection of b's latest heartbeat, if b ever sent one, and otherwise not at all |
| `ChannelRace.LookFindsExactly` | slack/main.go:138-164 | whatever else is under way, the lookup finds nothing if and only if the two users share no channel, and otherwise a channel both are members of: the one they share, when there is one |
| `ChannelRace.SecondChannelExactly` | slack/main.go:164-210 | in every reachable state an insert gives some two users a second channel if and only if it is the last membership of a request whose two users share one already |
| `ChannelRace.OneAfterTheOther` | slack/main.go:98-210 | a run in which no two requests between the same two users are past their lookup and not through together leaves any two users at most one channel, however often a pair asks |
| `ChannelRace.OneChannelExactly` | slack/main.go:98-210 | when Go's createChannel requests for any users interleave between lookup and each insert, and any call may fail, any two distinct users share at most one channel in every run if and only if no two requests are between the same two users, from whichever side |
| `ChannelRace.GoesOnOrFails` | slack/main.go:98-210 | every request that is not through can make its next call, and that call can fail |
| `ChannelRace.FailureEndsTheRequest` | slack/main.go:164-210 | a request of which a call failed does nothing more in any continuation and leaves what it inserted |
| `WsRegistry.WsMap.OnMessage` | slack/chat_server.cpp:423-426 | a heartbeat appends its connection to the user's list |
| `WsRegistry.WsMap.OnClose` | slack/chat_server.cpp:402-408 | the erase-while-iterating loop removes the connection from every list and drops the lists that become empty |
| `WsRegistry.WsMap.SendMessageOverWebSocket` | slack/chat_server.cpp:101-118 | one attempt per member and listed connection, in order, and their number is the sum of the members' list lengths |
| `WsRegistry.MultiplicityIsBeats` | slack/chat_server.cpp:402-426 | over any run a connection is listed under a user id exactly as often as it sent heartbeats for that id since it opened |
| `WsRegistry.ListedInOrder` | slack/chat_server.cpp:402-426 | over any run the list of a user is exactly the connections of its heartbeats that have not closed since, in the order of the heartbeats |
| `WsRegistry.NoEmptyList` | slack/chat_server.cpp:402-408 | no list in the map is ever empty |
| `WsRegistry.NoClosedConnection` | slack/chat_server.cpp:402-408 | a connection that has sent no heartbeat since it last closed is in no list, whatever other connections did since |
| `WsRegistry.CppBroadcastExactly` | slack/chat_server.cpp:104-116 | one broadcast attempts exactly the sum of the members' list lengths, and each listed connection of each member in its place |
| `WsRegistry.GoBroadcastExactly` | slack/main.go:337-344 | one broadcast makes exactly one emit for each member in the map, in order, on the connection the map has for it |
| `WsRegistry.GoKeepsLatest` | slack/main.go:381-389 | Go lists a user if and only if a heartbeat named it, with the connection of the latest one |
| `WsRegistry.GoListsAClosedConnection` | slack/main.go:376-389 | after one heartbeat and the close of its connection Go still lists the connection for the user, and C++ does not |
| `WsRegistry.StaleAfterExactly` | slack/main.go:376-389 | when every connection Go lists is open, one more event makes Go list a closed one if and only if it closes a listed connection |
| `WsRegistry.GoNeverStaleExactly` | slack/main.go:376-389 | over a whole run Go lists no closed connection at any moment if and only if no listed connection ever closes |
| `WsRegistry.GoWsMap.OnHeartbeat` | slack/main.go:381-389 | a heartbeat replaces the user's connection |
| `WsRegistry.GoWsMap.SendMessageOverWebSocket` | slack/main.go:337-344 | the loop makes the emits of one broadcast, at most one per member |
| `Heartbeat.GoReads` | slack/main.go:386-396 | of a printed heartbeat with any integer id Go reads the id, or the nearest 64-bit integer, and the name up to its first comma |
| `Heartbeat.CppReads` | slack/chat_server.cpp:413-421 | of a printed heartbeat C++ reads a 64-bit id and the name without its trailing blanks, and ignores any other id |
| `Heartbeat.GoRoundTripExactly` | slack/main.go:386-396 | Go reads back the printed pair if and only if the id is a 64-bit integer and the name has no comma |
| `Heartbeat.CppRoundTripExactly` | slack/chat_server.cpp:413-421 | C++ reads back the printed pair if and only if the id is a 64-bit integer and the name does not end in a blank |
| `Heartbeat.ParsersAgreeExactly` | slack/asset/message.html:51-56 | the two servers read the same pair if and only if the id is a 64-bit integer and the name has no comma and does not end in a blank |
| `Heartbeat.WithoutCommaExactly` | slack/main.go:386-394 | Go's handler indexes out of range if and only if the message has no comma; C++ ignores such a message |
| `Heartbeat.MessageIsRead` | slack/chat_server.cpp:416-421 | of any message what comes before its first comma is read as the id and the rest as the name, by Go up to the next comma, by C++ without trailing blanks |
| `Heartbeat.OddIds` | slack/chat_server.cpp:421 | for an id of letters, or of digits and letters, Go takes 0, C++ the number in front or nothing; both take a plus sign; a vertical tab or form feed in front only C++ does |
| `Heartbeat.BlanksAreTrimmed` | slack/chat_server.cpp:413-415 | blanks before and after the message make no difference to C++ |
| `Presence.CppOnlineExactly` | slack/chat_server.cpp:63-83 | C++ reports a user online if and only if less than 11 seconds have passed since the start of the second of the latest heartbeat or creation |
| `Presence.StatusIsRight` | slack/chat_server.cpp:371-381 | over any run, even if the clock goes back, a beat at most 10 s old is online on both servers and one 11 s old or more offline on both; online for Go implies online for C++ |
| `Presence.ServersDifferExactly` | slack/main.go:431-435 | the two servers differ if and only if the beat is more than 10 s old and less than 11 s have passed since the start of its second |
| `Presence.FetchStatus` | slack/main.go:417-436 | the loop over the user rows reports, by the last row of each name, online if and only if its time is at most 10 s ago for Go and less than 11 s ago for C++, rows stamped ahead of the clock included |
| `Presence.LastRowDecides` | slack/chat_server.cpp:373-381 | a name is in the status map if and only if a row has it, and the time of its last row decides: at most 10 s ago for Go, less than 11 s ago for C++ |
| `Presence.ReportIsRight` | slack/chat_server.cpp:371-381 | when the last row of a name has the time its user's latest beat stored, the status map of either server has the user online after at most 10 s and offline after 11 s or more |

## Left out

- A failed `Db.Begin` in airlineCheckin, where the code rolls back a nil transaction and panics; printing of seats.
- InnoDB's index structure, gap locks and deadlock detection: rows and row locks only.
- `append` in blockingQ writing past the visible length of the shared backing array: no copy of the slice ever reads it.
- A panic in a worker of connectionPool/temp.go after a failed query: it ends the process.
- connectionPool/main.go: it configures the pool of `database/sql`, whose code is not part of this model.
- LoadBalancer: dialling, copying between connections and the exits on network errors.
- BloomFilter.Hash: does not model 64-bit overflow of the byte sum, which takes an item of more than 2^55 bytes.
- BloomFilter.Filter.constructor: does not model a negative size, for which `make` panics; with size 0 the filter exists, but Add and Contains with a hash function to apply divide by it, and require a positive size.
- EchoLoop: getting the listener's descriptor, creating the kqueue, and the interrupted wait; `EINTR` starts the wait again with nothing changed.
- EchoLoop.EchoIsPrefix: after a failed write it says only that less came back than was read, not which bytes.
- Chat: response bodies, JSON decoding, and message kinds other than direct messages.
- ChannelRace: requests start from empty channel and membership tables, and both users of each exist.
- The order in which SQL returns the rows of a join or the members of a channel: insertion order; for two distinct users every row of the join is the same channel.
- Presence: calendar and time-zone conversion, so also clock changes for daylight saving.
- Heartbeat: the library parsers `strconv.Atoi` and `std::stol` are modelled on values, since their loops are not in the repository.
- createChannel of a user with itself is a possible request, but the pairwise theorems are about two distinct users.
- pessimistic_locking, online_offline_indicator, fileIO, staticFileServer, tcp, websockets, server_sent_events, indexBenchmarkId, the backend servers and the HTML pages: easy members, plumbing or covered above.
