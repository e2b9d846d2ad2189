# Dracula, verified

Dracula is an in-memory counter of expiring entries. Clients put `(namespace, key)` entries; each
lives for a fixed number of seconds; clients ask how many are still live. This project models the
store, its garbage collector, the wire format, the replication between servers and the client's
table of pending replies, and proves them against one specification: a log of puts, where a count
at `now` is the number of log entries with `stamp + ttl > now` (`PutLog.dfy`).

## What is modelled

- `ExpiryTree.dfy`, `TreeSweeps.dfy`, `ExpiryStore.dfy`: the tree and the store as classes, method
  by method, with an explicit clock that may advance at every reading. `StoreRefinement.dfy` proves
  that lazy expiry, empty lists left as tombstones and namespace collection cannot be told from the
  answers of any run.
- `Interleaving.dfy`, `LossAccounting.dfy`, `SweepTotals.dfy`: the same store cut at its lock
  boundaries into atomic steps, with tree identities, any number of puts, counts and cleanups in
  progress at once.
- `Replication.dfy`: the servers as a step system over a network that loses and reorders.
- `Protocol.dfy`, `Frames.dfy`, `RawMessage.dfy`, `KeyLists.dfy`, `TcpPath.dfy`: the 1500-byte frame,
  its printer and parser, the line-wise framing on TCP, and the lists of keys sent over it.
- `WaitingMessage.dfy`, `Client.dfy`, `ReplyMatching.dfy`: the reply table, the client's sending and
  receiving, and the matching of replies to requests.
- `Server.dfy`, `EndToEnd.dfy`: one worker against the put log, and whole client calls.

The packet hash is an unspecified function `Hasher` of the concatenated bytes; nothing is assumed
about collisions. Clock readings, map iteration orders, the network's choices, socket write failures
and the moment a `Dispose` lands are all arbitrary.

`dafny verify dfyconfig.toml` checks the project.

## Where the code does less than one would think

- Concurrent puts can be lost: two puts that both miss (`RacingPutsLoseAPut`), or a cleanup that
  removes a namespace under a put (`CleanupLosesAPut`). These are the only ways
  (`LossIsTraceable`), and without them counts are exact (`ExactWithoutOverlap`).
- A reply that comes after its entry expired and before a cleanup took it out deletes the entry and
  loses the callback (`LateReplyLosesTheCallback`).
- After a failed write the client calls a callback a second time exactly when a pass of the table's
  cleanup sent its entry between Add and Pull (`FailedWriteCallsTwiceIff`, `FailedWriteCalls`), so
  "at most once" holds of the table and not of the client.
- A server answers an `E` packet with another `E`, so with different pre-shared keys replication
  traffic need not end (`DifferentKeysBounce`); `ReachableTrafficEndsIff` says exactly when it does.
- A store with one namespace never collects it (`LoneNamespaceIsNeverCollected`).
- A key that is a single dot cuts the `KeyMatch` list short when a key comes before it and another
  after it; in first place it is carried, and in last place unless the list fills the packet
  (`DotKeyCutsTheList`). `KeyListSurvivesIff` says exactly which lists come back.
- A `CountEntries` may miss a put completed after it looked its tree up, when a cleanup removed that
  tree in between (`LatePutIsMissed`).
- `ListNamespaces` lacks the test for an empty list that `KeyMatch` has: with no namespaces it
  answers one empty name (`NoNamespacesIsOneEmptyName`).
- Over TCP the client does not look at the command of a reply, so a `KeyMatch` with the wrong key
  succeeds and lists one key, the text of the error (`ComplaintIsTakenForAKey`).
- The variable `oneQuarter` holds a third, as its comment says; the text of the error for the second
  space names space 1, and the error for the fourth space is that of the third
  (`protocol/protocol.go:47`, `protocol/protocol.go:168`). The model follows the code.
- The second emptiness test in `Tree.Count` (`store/tree/tree.go:68-71`) cannot fire, and
  `KeyMatch` matches a pattern anywhere in the key although its comment says "starting with".

## Model

| member | source | states |
|---|---|---|
| `ExpiryTree.Tree.constructor` | store/tree/tree.go:21-26 | a new tree is empty and keeps its lifetime |
| `ExpiryTree.Tree.RemoveExpired` | store/tree/tree.go:142-156 | keeps, in order, exactly the expiries after one clock reading |
| `ExpiryTree.Tree.GetAndCleanup` | store/tree/tree.go:128-140 | no list for an absent key or an empty list; the empty list is removed, everything else stays |
| `ExpiryTree.Tree.Count` | store/tree/tree.go:59-77 | answer and new tree are those of `Counted` at the reading made; a list that becomes empty stays until the next visit |
| `ExpiryTree.Tree.Put` | store/tree/tree.go:113-125 | filters at one reading, appends the stamp of a later one plus the lifetime, touches no other key |
| `ExpiryTree.Tree.Keys` | store/tree/tree.go:30-55 | visits every key present at entry once, in order, each at its own reading; tree, keys and total are those of the sweep `Swept` |
| `ExpiryTree.Tree.KeyMatch` | store/tree/tree.go:80-111 | counts exactly the matching keys, in order, and answers those with something live |
| `Expiry.LiveLive` | store/tree/tree.go:142-156 | filtering early and again later equals filtering once later: eager clean-up loses nothing |
| `TreeSweeps.UnvisitedIsKept` | store/tree/tree.go:30-55 | a sweep leaves keys it does not visit as they are |
| `TreeSweeps.VisitedIsCounted` | store/tree/tree.go:30-77 | a visited key is dropped iff its list was empty on arrival, and keeps what is live at its own reading |
| `TreeSweeps.TotalIsSum` | store/tree/tree.go:30-55 | the total is the sum over distinct keys of what each had live at its own reading |
| `TreeSweeps.KeptAreLive` | store/tree/tree.go:30-55 | the answered keys are exactly the visited keys with something live, in order |
| `TreeSweeps.SweepIsUnobservable` | store/tree/tree.go:30-77 | after any sweep over any keys, what is live at the end is what was live without it, for every key |
| `TreeSweeps.SweptKeys` | store/tree/tree.go:30-77 | after a full sweep a key is present iff it had a nonempty list before it |
| `TreeSweeps.TwoSweepsReclaim` | store/tree/tree.go:30-77 | after two sweeps a key all expired at the start is gone and a key live at the end is there; at one instant exactly the live keys remain |
| `TreeSweeps.PutKeepsListsSorted` | store/tree/tree.go:113-125 | a put keeps every list nondecreasing and at most stamp + ttl |
| `TreeSweeps.CountKeepsListsSorted` | store/tree/tree.go:59-77 | so does a count |
| `TreeSweeps.SweepKeepsListsSorted` | store/tree/tree.go:30-55 | so does a sweep |
| `TreeSweeps.FilterDropsAPrefix` | store/tree/tree.go:142-156 | on a sorted list the filter drops a prefix: the early discard of the TODO at line 148 gives the same list |
| `ExpiryStore.Store.constructor` | store/store.go:52-99 | a new store is empty, with cleaning on and nothing remembered as collected |
| `ExpiryStore.Store.EnableCleanup` | store/store.go:101-103 | switches cleaning on and changes nothing else |
| `ExpiryStore.Store.DisableCleanup` | store/store.go:105-107 | switches cleaning off and changes nothing else |
| `ExpiryStore.Store.Put` | store/store.go:197-212 | one tree put in the tree of the namespace, registered first when absent; every other namespace unchanged |
| `ExpiryStore.Store.Count` | store/store.go:216-226 | one tree count; 0 and no change for an absent namespace |
| `ExpiryStore.Store.CountEntries` | store/store.go:236-247 | the total of one sweep of the namespace; 0 when it is absent |
| `ExpiryStore.Store.CountNext` | store/store.go:271-274 | one round of the server-wide count |
| `ExpiryStore.Store.CountServerEntries` | store/store.go:265-276 | sweeps every namespace once in some order and answers the sum of the totals |
| `ExpiryStore.Store.KeyMatch` | store/store.go:250-261 | the tree key match; nothing for an absent namespace |
| `ExpiryStore.Store.FetchSubtrees` | store/store.go:128-158 | the first half of the (arbitrary) key order, without what the previous run kept |
| `ExpiryStore.Store.CollectNext` | store/store.go:164-178 | sweeps one fetched tree and removes its namespace iff no key was answered |
| `ExpiryStore.Store.CollectAll` | store/store.go:160-178 | every fetched namespace is swept once, in whatever order |
| `ExpiryStore.Store.CollectFrom` | store/store.go:124-181 | one cleanup from its key snapshot, with the new remembered set |
| `ExpiryStore.Store.RunCleanup` | store/store.go:113-195 | a whole cleanup and the namespaces left; nothing at all when cleaning is off |
| `ExpiryStore.Store.Namespaces` | store/store.go:228-232 | a cleanup with its whole effect on the store and on what is remembered, then every namespace left, each once; nothing at all when cleaning is off |
| `StoreRefinement.CountIsLive` | store/tree/tree.go:59-77 | the log count is the number of live expiries of its entries |
| `StoreRefinement.PutRefines` | store/store.go:197-212 | after a put the store agrees with the log plus that entry |
| `StoreRefinement.CountRefines` | store/store.go:216-226 | a count answers the log count and keeps store and log in agreement |
| `StoreRefinement.SweptRefines` | store/store.go:234-276 | sweeping any set of trees keeps store and log in agreement |
| `StoreRefinement.PartialSweepRefines` | store/store.go:249-261 | so does sweeping some keys of one tree |
| `StoreRefinement.KeyMatchAnswersLiveKeys` | store/tree/tree.go:80-111 | only matching keys live at the start, every matching key live at the end, in order, each once |
| `StoreRefinement.EmptiedIsDead` | store/store.go:170-176 | a namespace whose sweep answers no key has nothing live |
| `StoreRefinement.CollectedRefines` | store/store.go:113-195 | a cleanup keeps store and log in agreement |
| `StoreRefinement.SweepSandwich` | store/store.go:234-247 | log count at the end <= CountEntries <= log count at the start |
| `StoreRefinement.CountEntriesFits` | store/store.go:234-247 | the same whether or not the namespace is there |
| `StoreRefinement.ServerSandwich` | store/store.go:263-276 | the same for CountServerEntries over the whole server |
| `StoreRefinement.LiveNamespacesAreStored` | store/store.go:228-232 | every namespace with a live entry is listed |
| `StoreRefinement.StepRefines` | store/store.go:113-276 | every call keeps store and log in agreement, with no namespace nobody put, and answers what the log allows: a number, the keys of KeyMatch, or the namespaces left by a cleanup |
| `StoreRefinement.RunRefinesLog` | store/store.go:113-276 | main result: over every run from an empty store, with any clock advances and any cleanup and map orders, every answer is the put log's: exactly for Count, between end and start for the sweeping counts and for the keys of KeyMatch, and for the namespaces between those with something live and those ever put |
| `StoreRefinement.RunCountsPuts` | store/store.go:113-276 | main result with the log taken out: after any run from an empty store a count answers how many of the puts of the run were to its namespace and key with stamp + ttl after its reading |
| `StoreRefinement.RunKeepsSorted` | store/tree/tree.go:113-156 | in every reachable state each list is nondecreasing and at most now + ttl |
| `StoreRefinement.ConsecutiveCleanupsRotate` | store/store.go:113-195 | main result: of two consecutive cleanups of a run, with any other calls between, the second keeps none of what the first kept, and each keeps at most half of what it met |
| `StoreRefinement.CleanupRotates` | store/store.go:113-195 | one cleanup keeps nothing its predecessor kept and at most half of what it met; a removed namespace has nothing live then or later |
| `StoreRefinement.CleanupCollectsTheDead` | store/store.go:113-181 | a cleanup leaves unfetched namespaces alone, removes every fetched one with nothing live at its start, keeps every one with something live at its end, and remembers exactly the fetched ones left |
| `StoreRefinement.DeadStoreIsHalved` | store/store.go:128-178 | a cleanup of n namespaces that are all dead and none remembered removes exactly n / 2, whatever the order |
| `StoreRefinement.NextCleanupMayRemoveIff` | store/store.go:113-195 | main result, whatever the order of the map: the next cleanup may remove a namespace with nothing live iff the store has at least two and the previous cleanup did not keep it |
| `StoreRefinement.RemovedIsDead` | store/store.go:170-176 | what a cleanup of a run removes has nothing live then or later |
| `StoreRefinement.LoneNamespaceIsNeverCollected` | store/store.go:128-156 | with fewer than two namespaces a cleanup removes nothing, however long they have expired |
| `Interleaving.OwnedIsKept` | store/store.go:113-226 | every lock region keeps: each tree belongs to one namespace for life, and all references agree with that |
| `Interleaving.TreesAgreeIsKept` | store/tree/tree.go:59-156 | every lock region keeps each tree, reachable or not, in agreement with the puts that went to it |
| `Interleaving.OncePerPutIsKept` | store/tree/tree.go:113-125 | each put is recorded once |
| `Interleaving.AttachedIsKept` | store/store.go:170-206 | a tree is unreachable iff some recorded step detached it |
| `Interleaving.QuietIsDeadIsKept` | store/store.go:137-176 | a tree removed by a cleanup that no put overlapped holds nothing live and never will |
| `Interleaving.RacesRecordedIsKept` | store/store.go:197-212 | a put that missed and finds a tree registered was passed by that registration |
| `Interleaving.WindowsHoldIsKept` | store/store.go:137-178 | from fetch to removal an untouched namespace keeps its tree and every live key is still to do or kept |
| `Interleaving.InvHolds` | store/store.go:113-226 | the whole invariant at every state of every interleaving of puts, counts and any number of cleanups |
| `LossAccounting.LossIsAccountedFor` | store/store.go:113-226 | main result: live completed puts = what a count answers + those in a tree a hazard detached, at every reachable state |
| `LossAccounting.NeverOvercounts` | store/tree/tree.go:59-77 | whatever tree of a namespace a call still holds, its count is at most the log count |
| `LossAccounting.ReaderNeverOvercounts` | store/store.go:214-226 | main result: a count answers at most the number of distinct started puts to (ns, key) whose stamp plus ttl is after now |
| `LossAccounting.CountEntriesNeverOvercounts` | store/store.go:236-247 | main result: a total gathered key by key, with any puts, counts and cleanups in between, is at most the number of distinct started puts to the namespace stamped before its end and not expired at its start |
| `SweepTotals.ReadSeesTree` | store/tree/tree.go:59-77 | a count answers the number of live puts that went to its tree, under every interleaving |
| `SweepTotals.ListingMissesNothing` | store/store.go:236-247 | a CountEntries counts every put completed while its tree was still registered, up to the listing of the keys, and live at its end, if no hazard struck before |
| `SweepTotals.CountEntriesMissesNothing` | store/store.go:236-247 | main result: with any puts, counts and cleanups in between it misses no put completed before it looked its tree up |
| `SweepTotals.ListingNeverOvercounts` | store/store.go:236-247 | and counts at most the puts stamped before its end that were live at the look-up |
| `SweepTotals.LatePutIsMissed` | store/store.go:151-211 | a put completed after the look-up may be missed though nothing is lost: a quiet cleanup and a new tree in between |
| `SweepTotals.CountServerEntriesSandwich` | store/store.go:263-276 | main result: a server-wide count with anything in between is at most the distinct puts stamped before its end and live when it listed the namespaces, and without a hazard at least those completed before that and live at its end |
| `LossAccounting.LiveEntryIsReachableUnlessHazard` | store/store.go:137-206 | a live entry is unreachable iff an overwriting put or a busy cleanup detached its tree |
| `LossAccounting.LossIsTraceable` | store/store.go:151-211 | every live unreachable entry was cut off by one particular earlier step of one of those two kinds |
| `LossAccounting.ExactWithoutHazards` | store/store.go:113-226 | with no such step on a namespace its counts are the put log's |
| `LossAccounting.TouchedIsOverlap` | store/store.go:137-176 | a cleanup counts as overlapped iff a put on the namespace was in progress at some moment since its fetch |
| `LossAccounting.OverwriteNeedsARace` | store/store.go:199-206 | an overwriting put was between its miss and its registration when the overwritten tree was registered |
| `LossAccounting.ExactWithoutOverlap` | store/store.go:113-226 | main result in terms of the calls: exact counts if no put registers a tree in a race and no cleanup removes the namespace under a put |
| `LossAccounting.RacingPutsLoseAPut` | store/store.go:199-211 | an interleaving of two puts in which a completed live put is counted by nobody |
| `LossAccounting.CleanupLosesAPut` | store/store.go:151-211 | an interleaving of a put and a cleanup in which the same happens |
| `Replication.PeersOf` | server/server.go:43-73 | every listed entry other than the own one, as often as listed |
| `Replication.NewPeers` | server/server.go:43-73 | the loop computes that list in order |
| `Replication.ConservedHolds` | server/server.go:255-268 | with a shared key, for every put and server: stored + in flight + lost = own copy + times listed |
| `Replication.SameListMeansListedOnce` | server/server.go:43-73 | giving every server one list with each server on it once makes every server list every other once |
| `Replication.EachPutOnce` | server/server.go:255-336 | main result: stored once at the origin, and stored + in flight + lost = 1 at every other server |
| `Replication.AllAgreeWhenQuiet` | server/server.go:255-336 | nothing in flight and nothing lost: every server holds every put exactly once |
| `Replication.TrafficIsBounded` | server/server.go:316-336 | sent = in flight + lost + delivered <= puts * (servers - 1) |
| `Replication.AcceptedTrafficEnds` | server/server.go:256-259 | delivering accepted replicas sends nothing, so at most as many deliveries as messages in flight |
| `Replication.AddressedHolds` | server/server.go:255-336 | in every reachable state all traffic is between the servers |
| `Replication.TrafficEndsIff` | server/server.go:246-311 | without new puts the traffic between servers ends iff every message in flight is a replica its receiver validates; otherwise an E message bounces for ever |
| `Replication.ReachableTrafficEndsIff` | server/server.go:246-311 | main result: the same condition decides it in every reachable state, whatever the keys |
| `Replication.DifferentKeysBounce` | server/server.go:246-250 | two servers with different keys and one client put: a reachable state whose traffic never ends |
| `Replication.SharedKeyTrafficEnds` | server/server.go:246-336 | with a shared key it ends from every reachable state |
| `Replication.DriftIsBounded` | server/server.go:256-268 | main result: with delivery within D seconds, a count lies between the puts live now and the puts live with ttl + D |
| `Replication.CountAtIsLogCount` | server/server.go:256-268 | counting a server's copies of puts from everywhere is counting in the put log of those copies |
| `Replication.AnswersDriftLittle` | server/server.go:256-268 | main result: so the drift bound holds of the log count a server answers |
| `Replication.ClientPutIsStamped` | server/server.go:260-268 | a client put extends the log of its origin by one entry stamped with the present second, and no other |
| `Replication.DeliveryIsStamped` | server/server.go:256-258 | delivering an accepted replica extends the log of the receiver by one entry of the put, stamped with the second of the delivery, and no other log |
| `Replication.ReplicaCountIsExact` | server/server.go:256-268 | main result: in every run, whatever the keys, the count of a server is exactly the number of puts it accepted and replicas delivered to it with that time + ttl after t |
| `Protocol.PadRight` | protocol/protocol.go:252-266 | the input and then spaces, of exactly the size asked for; longer input unchanged |
| `Protocol.PrintedIntegerParses` | protocol/protocol.go:268-288 | little-endian decode after encode, any width |
| `Protocol.ParsedIntegerPrints` | protocol/protocol.go:268-288 | little-endian encode after decode, any bytes |
| `Protocol.ByteOfInteger` | protocol/protocol.go:273-288 | byte i of an encoded integer is (n / 256^i) % 256: the lowest byte comes first |
| `Protocol.Uint32ToBytes` | protocol/protocol.go:273-277 | four bytes that decode to the number |
| `Protocol.Uint32Layout` | protocol/protocol.go:273-277 | the four bytes of a uint32, each as a quotient |
| `Protocol.Uint64ToBytes` | protocol/protocol.go:284-288 | eight bytes that decode to the number |
| `Protocol.TrimOfPadded` | protocol/protocol.go:102-108 | padding disappears when trimmed |
| `KeyLists.TrimIs` | protocol/protocol.go:102-108 | trimming leaves a slice of the input: what is cut at either end is all white space, and what is left begins and ends with something else |
| `Protocol.Packet.FromParts` | protocol/protocol.go:89-100 | the packet NewPacketFromParts builds, padded and hashed |
| `Protocol.Packet.SetHash` | protocol/protocol.go:231-238 | the hash becomes the digest of key, id, namespace and data in that order, and no other field changes |
| `Protocol.Packet.ToBytes` | protocol/protocol.go:180-218 | the printed frame, and an error iff its size is wrong and the command is not for TCP only |
| `Frames.PrintsIffItFits` | protocol/protocol.go:208-218 | a UDP packet prints without error iff the namespace has at most 64 and the data at most 1419 bytes |
| `Frames.PrintedLayout` | protocol/protocol.go:180-206 | where each field of a printed frame lies |
| `Frames.WellFormedIffParses` | protocol/protocol.go:122-176 | a 1500-byte frame parses without error iff its command is known and its four spaces are there |
| `Frames.PrintedFrameParses` | protocol/protocol.go:89-248 | main result: parsing a printed frame gives back command, id, padded fields and a hash that validates |
| `Frames.ParsedFramePrints` | protocol/protocol.go:122-218 | main result: printing a parsed well-formed frame gives the frame back |
| `Frames.AcceptedFramesArePrinted` | protocol/protocol.go:89-248 | a frame is accepted iff it is one that a holder of the key prints |
| `Frames.ValidHashIsDigest` | protocol/protocol.go:241-248 | the hash bytes of a packet that validates are the first eight of its digest |
| `Frames.ValidatesIff` | protocol/protocol.go:241-248 | a frame validates iff its bytes 2 to 10 are the first eight of the hash of the key and its id, namespace and data bytes |
| `Frames.RepublishedFrameValidates` | server/server.go:316-326 | main result: republishing changes the command byte only, keeps the size and validates at a peer with the same key |
| `RawMessage.Reader.ReadLine` | server/rawmessage/rawmessage.go:21-23 | everything up to and with the next newline, or the rest without one |
| `RawMessage.LineHasOneNewline` | server/rawmessage/rawmessage.go:21-23 | a line read has no newline before its last byte |
| `RawMessage.ReadOneTcpMessage` | server/rawmessage/rawmessage.go:20-57 | the outcome is `Received` of the stream: end of stream, the slice panic, or the gathered, trimmed and re-padded message |
| `RawMessage.ReceivedUpToFirstStop` | server/rawmessage/rawmessage.go:34-48 | gathering ends at the first place a stop symbol ends |
| `RawMessage.UnterminatedLosesThree` | server/rawmessage/rawmessage.go:34-48 | a stream that ends without a stop symbol still delivers the lines gathered, without their last three bytes, and panics when there are fewer |
| `RawMessage.WhiteInFrontIsDropped` | server/rawmessage/rawmessage.go:29-31 | white space before a message changes nothing as far as it is on its first line |
| `RawMessage.ArrivesIffTransportable` | server/rawmessage/rawmessage.go:20-57 | main result: a 1500-byte body starting with a non-space byte arrives unchanged iff it is transportable |
| `RawMessage.TransportableIff` | server/rawmessage/rawmessage.go:34-48 | that is: no stop symbol inside, none formed with the one appended, and no white space but padding at the end |
| `TcpPath.WrittenIsFrameAndStop` | client/client.go:498-501 | the stop symbol appended to the padded data ends up right behind the frame |
| `TcpPath.TcpRequestArrives` | client/client.go:480-573 | main result: a packet that fits reaches the parser as it was, and validates, iff its frame is transportable |
| `KeyLists.SplitOfJoin` | client/client.go:332-336 | splitting a joined nonempty list of newline-free keys gives it back |
| `KeyLists.JoinOfSplit` | client/client.go:332-336 | joining what was split gives the text back, and no line of it holds a newline |
| `KeyLists.JoinHasNoStop` | server/server.go:296-300 | joined carriable keys form no stop symbol |
| `KeyLists.OnlyDotKeysStop` | server/server.go:296-300 | in a joined list of newline-free keys only a dot key with a key on either side forms a stop symbol |
| `ByteStrings.BelowIsLexicographic` | store/tree/tree.go:80-111 | the order of the keys: at the first byte that differs the smaller comes first, and a proper prefix comes before |
| `TcpPath.KeyListSurvivesIff` | client/client.go:312-337 | main result: a nonempty list, however long, comes back from join, transport, trim and split iff the head of its frame holds no stop symbol, the list fits one packet, no key holds a newline, the first key is not empty, the join has no outer white space and no stop symbol, and it does not fill the packet with a dot line at its end |
| `TcpPath.KeyListSurvives` | client/client.go:312-337 | in particular every list of carriable keys (no newline, no outer white space, not a single dot) that fits one packet |
| `TcpPath.EmptyListSurvives` | client/client.go:332-336 | an empty list comes back empty |
| `TcpPath.NamespaceListSurvivesIff` | client/client.go:411-429 | a list of namespaces whose first is not empty comes back under the same condition as a list of keys |
| `TcpPath.NoNamespacesIsOneEmptyName` | client/client.go:411-429 | with no namespaces the client gets a list of one empty name |
| `TcpPath.ErrorComesBackAsKey` | client/client.go:564-572 | an error reply on the connection is read as a list of one key, its text, without an error |
| `TcpPath.DotKeyCutsTheList` | server/rawmessage/rawmessage.go:34-46 | what comes back of any list of keys without newlines or outer white space: all keys before the first dot key that has a key before it and, unless the list fills the packet, a key after it; a dot key in first place, or in last place with room to spare, is carried |
| `WaitingMessage.ResponseCache.constructor` | client/waitingmessage/waitingmessage.go:36-51 | a new table is empty and not disposed |
| `WaitingMessage.ResponseCache.Len` | client/waitingmessage/waitingmessage.go:54-58 | the number of pending entries |
| `WaitingMessage.ResponseCache.Add` | client/waitingmessage/waitingmessage.go:60-73 | an error and no change iff the id is taken; otherwise the entry with its creation second |
| `WaitingMessage.ResponseCache.Pull` | client/waitingmessage/waitingmessage.go:76-94 | the three answers; the entry is deleted even when it has expired |
| `WaitingMessage.ResponseCache.Dispose` | client/waitingmessage/waitingmessage.go:98-103 | only marks the table |
| `WaitingMessage.ResponseCache.Crawl` | client/waitingmessage/waitingmessage.go:114-130 | visits min(n, n/3 + 1) distinct entries in any order and collects the timed-out ones |
| `WaitingMessage.ResponseCache.TakeOut` | client/waitingmessage/waitingmessage.go:135-140 | removes one entry and sends it iff the table is not disposed by then |
| `WaitingMessage.ResponseCache.TakeAllOut` | client/waitingmessage/waitingmessage.go:132-141 | removes the collected entries in order; a Dispose may land anywhere |
| `WaitingMessage.ResponseCache.CheckCleanup` | client/waitingmessage/waitingmessage.go:105-144 | one pass; nothing when disposed at its start |
| `WaitingMessage.StepKeepsLedger` | client/waitingmessage/waitingmessage.go:60-144 | every call keeps: entries are exactly the pending tickets, each with the callback its Add gave; a settled ticket stays settled; the channel has carried each timed-out ticket once, with that callback, and no other |
| `WaitingMessage.PullHandsOutWhatWasAdded` | client/waitingmessage/waitingmessage.go:76-94 | a pull hands a callback out iff its entry is there and not expired, and it is the one the entry was added with |
| `WaitingMessage.LedgerBalances` | client/waitingmessage/waitingmessage.go:60-144 | main result: over every run each callback is pending or has one fate for good; the table hands it out once if that fate is "handed out", sends it once if it is "timed out", and gives it away at most once in all |
| `WaitingMessage.ChannelBalances` | client/waitingmessage/waitingmessage.go:132-141 | over every run the channel carries ticket by ticket the callback that was added, once iff its fate is "timed out", and what it carried before stays |
| `WaitingMessage.LateReplyLosesTheCallback` | client/waitingmessage/waitingmessage.go:85-90 | a pull answers "expired" iff the entry has expired, and then no later call hands the callback out and the channel never carries it |
| `WaitingMessage.FailedWriteCallsTwiceIff` | client/client.go:459-476 | main result, for any table and whatever other requests, passes and disposal come between and later: the fallback calls the request's own callback, and the channel carries it too iff a pass before the pull visited the expired entry and sent it |
| `Client.FailedWriteCalls` | client/client.go:459-476 | main result: among all invocations for timeouts and the failed write the callback occurs twice iff such a pass sent it, and once otherwise |
| `WaitingMessage.CleanupBeforeFailedWrite` | client/client.go:466-475 | it does happen: one pass after the timeout and before the write fails sends the callback |
| `WaitingMessage.PassRemovesTimedOut` | client/waitingmessage/waitingmessage.go:105-144 | a pass removes exactly the visited entries older than the timeout |
| `WaitingMessage.PassOverExpired` | client/waitingmessage/waitingmessage.go:114-141 | when all have expired, n / 3 + 1 of them leave, or all when there are fewer |
| `WaitingMessage.GeometricDrain` | client/waitingmessage/waitingmessage.go:105-144 | main result: 3^k * left <= 2^k * n after k passes, and none are left after n passes |
| `WaitingMessage.DisposedIsIdle` | client/waitingmessage/waitingmessage.go:98-109 | a disposed table stays disposed, sends nothing, and passes change nothing |
| `WaitingMessage.NothingIsSentAfterDispose` | client/waitingmessage/waitingmessage.go:98-144 | whatever calls follow a Dispose, the channel carries nothing more |
| `Server.ErrorTextFits` | protocol/protocol.go:42-51 | every error text fits the data field |
| `Server.PutFrameRepublishes` | server/server.go:260-326 | an accepted put is a well-formed frame and republishes as itself with command R |
| `Server.ReplicaIsStored` | server/server.go:256-268 | a peer with the same key stores the replica under the same trimmed names and answers nothing |
| `Server.Server.constructor` | server/server.go:43-90 | an empty store, the key, and the peers without the own entry; the expiry is at least two seconds |
| `Server.Server.ServePut` | server/server.go:260-261 | the log gains the entry, stamped when the put ends |
| `Server.Server.ServeCount` | server/server.go:269-274 | the log count at the reading made |
| `Server.Server.ServeCountNamespace` | server/server.go:278-283 | between the log counts of the namespace at end and start |
| `Server.Server.ServeCountServer` | server/server.go:287-292 | between the log counts of everything at end and start |
| `Server.Server.ServeKeys` | server/server.go:296-299 | the matching keys in order: only ones with a live put at the start, and all with one at the end |
| `Server.Server.ServeNamespaces` | server/server.go:302-305 | with cleaning on, each namespace once, only ones somebody put to, and all with a live put at the end; with cleaning off, none |
| `Server.Server.Handle` | server/server.go:219-314 | one turn: the log count of the names a put or replica stores rises by one, to be live until ttl after the turn ends, and every other count stays; a put sends the frame with command R to as many peers as writes succeed, in order, and nothing else sends any; the reply is that of the request, with answers within what the log allows |
| `Server.Server.TakeTurn` | server/server.go:219-314 | the same with a record of the turn: log, clock, reply and frames sent |
| `Server.Server.Republish` | server/server.go:317-336 | peer i is sent the re-hashed frame, for as many peers as there are writes before one fails, and nobody anything if the size is wrong; the packet of the caller is unchanged |
| `Server.Server.Worker` | server/server.go:219-314 | over a whole stream of messages: every reply fits the log of the puts and replicas before it, each client put goes to the first peers with command R and no other message is sent on, and one turn begins after the one before has ended |
| `Server.CountTurnAnswers` | server/server.go:256-276 | main result over a stream: a count is answered with min(2^32 - 1, live puts in the log at the start + earlier P and R messages of the same trimmed names whose turn ended less than ttl before) |
| `Server.TotalTurnAnswers` | server/server.go:278-294 | a total is answered with min(n, 2^32 - 1) for an n between the live puts at end and start of the turn |
| `Server.KeysTurnAnswers` | server/server.go:296-300 | the joined list of the matching keys, between what is live at end and start of the turn |
| `Server.NamespacesTurnAnswers` | server/server.go:302-306 | the joined list of namespaces somebody put to, with every one that has a live put |
| `Server.PutTurnAnswers` | server/server.go:256-264 | a client put is acknowledged with an empty P packet; a replica, and nothing else, is not answered |
| `Server.SendsAreFanout` | server/server.go:328-335 | what the worker sends for a put is the fan-out of `Replication` to as many peers |
| `Server.WrongKeyIsRejected` | server/server.go:245-250 | main result: a frame printed with one key is refused by a server with another iff the two digests differ in their first eight bytes |
| `Client.Client.constructor` | client/client.go:279-282 | a client starts counting ids at 0 with an empty table |
| `Client.Client.MakeMessageID` | client/client.go:279-282 | the next number modulo 2^32, as four bytes |
| `Client.Client.SendUDP` | client/client.go:449-479 | the four outcomes: too long, id taken, write failed, sent and pending; after a failed write the callback gets the error, the entry is gone, and the channel has gained the callback iff a pass in between sent it |
| `Client.Client.CleanMeanwhile` | client/waitingmessage/waitingmessage.go:105-144 | any number of passes, and disposal, that fall between Add and the write are a run of the table without that id |
| `Client.Client.HandleResponse` | client/client.go:230-277 | one received frame: table and invoked callback are those of `OnFrame` |
| `Client.Client.HandleResponses` | client/client.go:230-277 | the same over a stream of frames |
| `Client.Client.HandleTimeouts` | client/client.go:221-228 | every callback the channel carries is called with the timeout error, once and in order |
| `Client.FrameCallsIff` | client/client.go:230-277 | a received frame calls a callback iff it parses or has an id, its entry is there and not expired, and its command is C, P, N, S or E; an error is passed on as its trimmed text, anything else as the data bytes; the entry leaves the table |
| `EndToEnd.RequestArrives` | server/server.go:219-312 | what the server makes of every UDP request a client with its key prints |
| `EndToEnd.ReplyArrives` | server/server.go:229-312 | every number, ack and error reply is 1500 bytes, parses, and carries the request's id |
| `EndToEnd.NumberArrives` | client/client.go:291-301 | a count reply has the command of its request and decodes to the count if that is below 2^32, and to 2^32 - 1 otherwise |
| `EndToEnd.ReplyIsTaken` | client/client.go:253-273 | a reply in time calls the callback with its contents, a late one calls nothing, and either way the entry has left the table |
| `EndToEnd.CountEndToEnd` | client/client.go:286-309 | main result: encode, parse, validate, dispatch, store, reply, table and decode give the callback the log count of the trimmed names if that is below 2^32, and 2^32 - 1 otherwise |
| `EndToEnd.CallRefines` | client/client.go:286-447 | one client call through the reply table: refused if too long or its id is taken, no answer iff the reply comes after the timeout, and otherwise its own callback is given what the log allows; store and log stay in agreement and the table's entries are left as they were |
| `EndToEnd.CallsRefineLog` | client/client.go:286-447 | main result: so does every run of puts and counts against an empty server, by a client whose table may hold other requests |
| `EndToEnd.CallsCountPuts` | client/client.go:286-447 | main result with the log taken out: after any run of calls against an empty server a count gives its callback the number of puts among them of the same trimmed names that were sent and are live |
| `EndToEnd.ComplaintIsMade` | server/server.go:228-312 | a frame is refused exactly for an unknown command, a missing space, its size, its hash or an unserved command, in this order and with these texts |
| `EndToEnd.ComplaintEndToEnd` | client/client.go:259-268 | main result: the callback of a request that is refused gets that text as its error, and a refused count gives no number |
| `EndToEnd.WrongKeyEndToEnd` | server/server.go:245-250 | main result: a call with another key than the server gives its callback "auth failed: packet hash invalid" when the digests differ in their first eight bytes |
| `EndToEnd.ComplaintIsTakenForAKey` | client/client.go:564-572 | over TCP the text of a refused KeyMatch or ListNamespaces comes back as a list of one name, without an error |
| `EndToEnd.KeyMatchEndToEnd` | client/client.go:312-337 | main result: a KeyMatch whose request frame is transportable is answered with keys the log allows, and the client gets that very list iff it survives the way back |
| `EndToEnd.NamespacesRequestArrives` | server/server.go:302-306 | the server reads a printed L frame as a request for the namespaces |
| `EndToEnd.NamespacesEndToEnd` | client/client.go:411-429 | main result: a transportable ListNamespaces is answered with namespaces somebody put to and all with a live put, and the client gets that very list iff it survives the way back |
| `ReplyMatching.IdsRepeat` | client/client.go:279-282 | two calls share an id iff they are a multiple of 2^32 apart |
| `ReplyMatching.ReplyKeepsId` | server/server.go:229-312 | whatever the request was, the reply carries its id |
| `ReplyMatching.ReceiveMatchesModulo` | client/client.go:253-257 | a genuine reply finds the entry, and the callback, of its own call or of one a multiple of 2^32 away |
| `ReplyMatching.StaleReplyMismatches` | client/client.go:253-272 | a late copy is handed to a later request exactly when the ids have come around |
| `ReplyMatching.RepliesMatch` | client/client.go:230-282 | main result: while at most 2^32 ids have been taken, by calls sent, refused, sent over TCP or failed at the write, and under loss, reordering and duplication, every callback invoked with a reply belongs to the call the server produced it for and is given what it says |

## Left out

- Sockets, dialling, goroutine start-up, timeouts and the TCP connection pool: I/O; the network is a set of steps and a connection one byte sequence.
- Pipelined TCP messages: each call of `ReadOneTcpMessage` has its own buffered reader, so what it read ahead is lost to the next call; the theorems allow any tail but speak of one call.
- Hash internals and any strength of the authentication: a foreign library.
- Slice aliasing of `append(preSharedKey, ...)` and of the packets' slices: bytes are values.
- Regular expressions and the rewriting of `*` in `KeyMatch`, including its answer to a pattern that does not compile: `matches` is any predicate on pattern and key.
- Red-black tree and hash map internals: an ordered key list and maps with arbitrary iteration order.
- Prometheus metrics, logging, the REST server, the command-line programs, `serverpool`, and the parsing of host, port and peer strings with its panics: no bearing on the counts.
- int64 overflow of second plus lifetime: mathematical integers.
- White space beyond ASCII: `IsSpace` has the ASCII characters Go counts as space.
- Timers: a cleanup or a table pass is a step that may happen at any time, which covers the extra chains each `Namespaces()` call schedules and leaves out how many there are.
- Data races on fields: the unlocked write of `lastGCdNamespaces`, the unlocked reads of `disposed` and `cleanupServiceEnabled`, and the unlocked iterator of `KeyMatch` are single steps here; a `KeyMatch` beside a put is not in the interleaved model.
- WaitingMessage.ResponseCache.Dispose: does not model that closing `TimedOutMessages` makes a second Dispose, or a pass already past its test, panic; the model drops the callback.
- The blocking of a pass, which holds the table's lock while nobody receives from the channel: a send is one step.
- Several workers of one server at once: their effect on the store is in `Interleaving`; `Server.Worker` serves one message after the other.
- Server.Server.Handle: takes messages of at least 1500 bytes, which is all that either reader delivers; the nil packet of a shorter one is not part of this model.
- EndToEnd.CallsRefineLog: calls one at a time and no message lost, though a reply may be late; losses, duplicates and overlapping requests of one client are in `ReplyMatching`.
- Replication.EachPutOnce: the network does not duplicate, since a duplicated `R` is stored twice by the code.
- Replication.DriftIsBounded: one clock for all servers.
- `Healthcheck` and the client's choice of a server: the same path as Count, and plumbing.
- `Server.Clear` and `Close`: the first is for unit tests, the second is I/O.
