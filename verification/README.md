# Verified model of the game-server monorepo

Dafny 4.11 models of the parts of this repository whose correctness is hard to see by reading,
with proofs about whole runs.  `dafny verify dfyconfig.toml` checks everything.

Where the original changes state step by step, a class does the same in place, with the same
loops and branches, and is proved equal to a function on values; the theorems are about those
functions and about every run of them.

| file | what it models |
|---|---|
| `MachineWords.dfy`, `ReceiveWindow.dfy` | 16- and 32-bit words; serial comparison, the acknowledgement window, the duplicate and old filter |
| `UdpEndpoint.dfy`, `UdpProtocol.dfy`, `UdpSchedule.dfy` | one end of the reliable UDP link; two ends over a network that loses, duplicates and reorders; when things are sent, in milliseconds |
| `MatchQueue.dfy`, `Matchmaker.dfy` | the bucketed queue with its index; greedy pairing with an early exit |
| `PongPhysics.dfy`, `PongRally.dfy` | the deterministic simulation that server and client both run; one step of it case by case |
| `DeltaCodec.dfy`, `Snapshots.dfy`, `SnapshotDecoding.dfy` | the byte codec, the generator in the server's tick loop, the decoder |
| `Prediction.dfy` | client prediction and reconciliation |
| `ConnectionPool.dfy`, `PoolHistory.dfy` | the connection pool, any number of threads; its health checks and the order of its queue over a run |
| `ChatJson.dfy`, `ChatGrammar.dfy`, `ChatRoundTrip.dfy` | the chat server's JSON printer and parser, the language it accepts, and that they undo each other |
| `GameSession.dfy`, `SessionRuns.dfy`, `SessionRecord.dfy`, `RateOfFire.dfy`, `SessionGeometry.dfy` | the arena combat session: its operations, what its runs keep, its deaths against the record, its rate of fire, who is hit where |
| `Leaderboard.dfy`, `Profiles.dfy` | the leaderboard index and the profile service on top of it |
| `TurnCombat.dfy` | the turn-based game |
| `Collections.dfy` | an optional value and a bounded history, shared by the others |

## Main theorems

- `UdpProtocol.AckSafety`, `AckSafeExactly`, `AtMostOnceExactly`, `Conservation`, `RetryBound` and `ReceiveWindow.WindowTheorem`: what acknowledgement, delivery and retransmission guarantee over every run and every network, and exactly for how many sends.  `UdpSchedule.RetransmitsExactly`, `CopiesLeaveAt`, `AckClearsExactly`: when copies leave, to the millisecond, and what ends them.
- `Matchmaker.Matchmaker.RunMatching` with `PairsDisjoint`, `PairsMaximal`, `PairsServe`, `CutIsSound`: a maximal matching, first come, first served, and the early exit costs nothing.
- `Snapshots.ServerInvariant`, `SnapshotDecoding.SynchronisationTheorem`: from any server run through bytes and losses to a decoder that succeeds exactly if the keyframes arrive, and is then exact in the discrete fields and within two roundings in the others.
- `PongPhysics.WorldInvariant`, `Prediction.NothingToCorrect`: the simulation never stalls or leaves the field, and client and server that see the same frames never disagree.  `PongRally.RallyExactly`: who returns which ball, and who scores.
- `ConnectionPool.Conservation`, `Exclusive`: no connection is lost, duplicated or shared by any interleaving of threads.  `PoolHistory.OnlyHealthyOnes`, `FirstInFirstOut`: which connections are handed out, and in what order.
- `ChatRoundTrip.RoundTrip`, `ChatGrammar.AcceptsExactly`: parser and printer undo each other, and the accepted language is exactly a stated grammar.
- `SessionRuns.SessionInvariant`, `SessionRecord.DeathsExactlyOnce`, `RateOfFire.RateOfFire`: conservation of projectiles, deaths reported exactly once, in order and for the right player, and a bound on shots in the air.  `SessionGeometry.HitsExactly`: who is hit, in coordinates.
- `Leaderboard.InMemoryLeaderboardStore.TopN`, `Profiles.ListingsAgreeWithoutSpectators`: the dual index is a sort, and when two ways of listing agree.
- `TurnCombat.BattleLength`, `BattleOutcome`, `BoundsAreReached`: tight bounds on the length of every battle.

## What the proofs found

Where the code is not quite what it looks like.  Each point is proved, and a property that fails is
proved together with the exact condition under which it holds.

- A packet exactly 32 ahead of the newest clears the window, although 32 is still inside it everywhere else.  The window is exact at distances 1 to 31, and the number leapt over can be delivered a second time (`RedeliveryHappens`, `WindowTheorem`).
- A header from an end that has heard nothing acknowledges sequence number 0 and no other (`EmptyHeaderAcks`).  After exactly 2^16 sends this drops a packet that never arrived (`AckFailsAtWrap`); up to 2^16 - 1 it cannot (`AckSafeExactly`).
- At-most-once delivery, up to the exception above, holds for runs of at most 2^15 + 1 sends from each end, and a run of 2^15 + 2 breaks it (`AtMostOnceExactly`, `DeliversTwice`).
- The limit of 5 retries is never reached: the time to live of 500 ms always comes first (`RetryBound`).
- A keyframe interval of more than the history size plus one is not kept: the encoder then loses its base and sends a keyframe every size + 1 ticks (`EncodeNext`, `BaseAlwaysFoundExactly`).  The server's 20 and 256 are well inside.
- A delta whose keyframe was lost is refused, and nothing else is (`DecodesExactly`).
- The forced keyframe for a checkpoint (line 88 of the server's tick loop) never runs (`CheckpointIsKeyframe`).
- A player with the empty id is reset by every upsert, so its shots need not cover its hits and projectiles: `EmptyIdFails` is such a run, and `EmptyIdExactly` says which runs are.  The arena's WebSocket server reads the id with `>>`, which never yields an empty one, so only a direct caller of the session can do this.
- The two ways of listing the top profiles differ when somebody is known only from the lines of a match (`ListingsAgreeExactly`, `ListingsAgreeWithoutSpectators`, `ListingsCanDiffer`).
- A join that skips a place during a turn-based battle makes the end-of-tick recovery end the game (`RecoveryNeedsAVacancy`, `RecoveryHappens`).
- The queue's branches for an index entry without a bucket (`match_queue.cpp` lines 16 and 44) cannot happen, by the queue's invariant, and are not in the model.

## Assumptions shared by the models

- Each method guarded by a mutex is one atomic step.  Clock readings, random draws, the health of a connection and the traversal order of hash maps are arguments, and the theorems hold for all of them.
- `double` is `real`; the square root is any function with `sqrt(x) * sqrt(x) == x` and `sqrt(x) >= 0` for `x >= 0` where that matters; storing as `float` is any rounding, with an error bound where one is claimed.
- 16- and 32-bit sequence numbers, windows, scores and byte fields wrap as in the source.  64-bit ticks and statistics counters are unbounded.

## Model

| member | source | states |
|---|---|---|
| `MachineWords.MaskTestsBit` | game-server/netcode-core/net/udp/udp_transport.cpp:201-202 | testing a word against a shifted one, as both window tests do, reads exactly one bit |
| `MachineWords.SetBit` | game-server/netcode-core/net/udp/udp_transport.cpp:309-315 | or-ing in a shifted one stays within 32 bits and sets that bit and no other |
| `MachineWords.ShiftLeftBit` | game-server/netcode-core/net/udp/udp_transport.cpp:308 | shifting the window left moves every bit up and forgets those past bit 31 |
| `ReceiveWindow.SerialComparison` | game-server/netcode-core/net/udp/udp_transport.cpp:185-187 | for any two unbounded numbers less than 2^15 apart, the 16-bit comparison orders them rightly (section 3.2 of RFC 1982), and the wrapped difference is the true one |
| `ReceiveWindow.SerialComparisonLimit` | game-server/netcode-core/net/udp/udp_transport.cpp:185-187 | within one turn of the space the comparison is right if and only if the numbers are less than half a turn apart |
| `ReceiveWindow.IsSeqAckedBits` | game-server/netcode-core/net/udp/udp_transport.cpp:189-203 | a number is acknowledged if and only if it is the newest or the one at some distance whose bit is set, wrap-around included |
| `ReceiveWindow.HasReceivedBits` | game-server/netcode-core/net/udp/udp_transport.cpp:320-339 | for a number up to half a turn behind the newest, the received test is exactly its bit |
| `ReceiveWindow.UpdateBits` | game-server/netcode-core/net/udp/udp_transport.cpp:294-318 | the value of every one of the 32 bits after any update, in terms of the bits before |
| `ReceiveWindow.MarkedAfter` | game-server/netcode-core/net/udp/udp_transport.cpp:303-317 | the same through unbounded numbers: a newer packet shifts the marks and, unless 32 or more ahead, marks the old newest; a late one adds its own mark |
| `ReceiveWindow.ClassifyExactly` | game-server/netcode-core/net/udp/udp_transport.cpp:256-270 | the duplicate and old filter delivers a number exactly when it is newer than all accepted ones, or among the last 32 and not accepted, or the one at distance 32 that the leap forgot |
| `ReceiveWindow.WindowTheorem` | game-server/netcode-core/net/udp/udp_transport.cpp:246-339 | for every arrival sequence with no arrival more than half the space away: the bit at each distance 1..31 is set if and only if that number was accepted, at 32 unless it was forgotten; every number reaches the handler at most once, except one that was newest when a packet exactly 32 ahead was accepted, and that one at most twice |
| `ReceiveWindow.HalfAheadIsOld` | game-server/netcode-core/net/udp/udp_transport.cpp:257-268 | a number exactly half the space ahead is dropped as old |
| `ReceiveWindow.RedeliveryHappens` | game-server/netcode-core/net/udp/udp_transport.cpp:305-306 | the exception is real: arrivals 1, 33, 1 deliver number 1 twice |
| `ReceiveWindow.ClaimsTheorem` | game-server/netcode-core/net/udp/udp_transport.cpp:294-318 | for every arrival sequence whatever, wrap-around and stale packets included, the window claims only numbers some accepted packet carried |
| `UdpEndpoint.BackoffFor` | game-server/netcode-core/net/udp/udp_transport.cpp:29-35 | the loop computes 50 ms times 1.5 to the number of retries, truncated to milliseconds |
| `UdpEndpoint.UdpTransport.constructor` | game-server/netcode-core/net/udp/udp_transport.cpp:172-183 | a new peer starts at sequence number 1 with nothing received and nothing pending |
| `UdpEndpoint.UdpTransport.ComposePacket` | game-server/netcode-core/net/udp/udp_transport.cpp:341-363 | the header carries the newest number and the window, or zeros when nothing was received |
| `UdpEndpoint.UdpTransport.SendPacket` | game-server/netcode-core/net/udp/udp_transport.cpp:90-119 | the number is used up in every case; a reliable send is refused exactly at 32 pending, else filed under its own number |
| `UdpEndpoint.UdpTransport.ExpirePending` | game-server/netcode-core/net/udp/udp_transport.cpp:378-394 | exactly the packets past their time to live or out of retries are returned and counted |
| `UdpEndpoint.UdpTransport.UpdatePending` | game-server/netcode-core/net/udp/udp_transport.cpp:131-170 | the new state is the survivors with the due ones rescheduled; the buffers sent are those of exactly the packets whose next transmission is due and whose first was less than 500 ms ago, each once, in ascending order, with the current acknowledgement |
| `UdpEndpoint.UdpTransport.ResendDue` | game-server/netcode-core/net/udp/udp_transport.cpp:144-163 | the retransmission loop alone, against the same specification |
| `UdpEndpoint.UdpTransport.HandleAck` | game-server/netcode-core/net/udp/udp_transport.cpp:282-292 | the erase-while-iterating loop leaves exactly the packets not acknowledged |
| `UdpEndpoint.UdpTransport.ProcessPacket` | game-server/netcode-core/net/udp/udp_transport.cpp:246-280 | acknowledgement first, then the filter, then the window update only for what is delivered; returns whether the handler is called |
| `UdpProtocol.Invariant` | game-server/netcode-core/net/udp/udp_transport.cpp:90-318 | every run of two endpoints over a network that loses, duplicates and reorders keeps the protocol invariant |
| `UdpProtocol.AckSafety` | game-server/netcode-core/net/udp/udp_transport.cpp:189-318 | in every run of any length a pending packet is dropped as acknowledged only if the other end accepted a packet with that number, or it is number 0 under the header of an end that has heard nothing |
| `UdpProtocol.AckSafetyNoWrap` | game-server/netcode-core/net/udp/udp_transport.cpp:246-318 | with fewer than 2^16 sends the far handler got this very packet: same number, same payload |
| `UdpProtocol.AckFailsAtWrap` | game-server/netcode-core/net/udp/udp_transport.cpp:100-114 | a run of exactly 2^16 sends in which packet 2^16, waiting under number 0, is dropped as acknowledged by an end that has heard nothing |
| `UdpProtocol.AckSafeExactly` | game-server/netcode-core/net/udp/udp_transport.cpp:189-318 | every run with at most n sends from the near end is acknowledgement-safe (the packet itself arrived) if and only if n < 2^16 |
| `UdpProtocol.EmptyHeaderAcks` | game-server/netcode-core/net/udp/udp_transport.cpp:350-353 | the header of an end that heard nothing acknowledges number 0 and, if and only if, no other |
| `UdpProtocol.DeliveryIntegrity` | game-server/netcode-core/net/udp/udp_transport.cpp:131-163 | every payload handed over in any run is the one the far end sent under that number, retransmitted or not |
| `UdpProtocol.Conservation` | game-server/netcode-core/net/udp/udp_transport.cpp:90-165 | reliable sends = refused + acknowledged + timed out + pending (+ overwritten, which is 0 up to 2^16 sends); at most 32 are pending, each filed under its own number |
| `UdpProtocol.ReuseNeedsFullTurn` | game-server/netcode-core/net/udp/udp_transport.cpp:100-114 | a sequence number comes round again only after 2^16 sends |
| `UdpProtocol.RetryBound` | game-server/netcode-core/net/udp/udp_transport.cpp:131-163 | whatever the clock does, nothing is retransmitted more than 4 times, so expiry is by age alone, and the first update at or past 500 ms removes the packet and an earlier one does not |
| `UdpProtocol.RefreshKeepsOk` | game-server/netcode-core/net/udp/udp_transport.cpp:146-151 | the arithmetic behind it: the truncated intervals 50, 75, 112, 168, 253 ms pass the time to live |
| `UdpProtocol.DeliveredAtMostOnce` | game-server/netcode-core/net/udp/udp_transport.cpp:256-275 | the window theorem for both ends of every two-party run in which no delivery is more than half the space away |
| `UdpProtocol.ShortRunsAreFresh` | game-server/netcode-core/net/udp/udp_transport.cpp:90-275 | no delivery is, while each end has made at most 2^15 + 1 sends |
| `UdpProtocol.DeliversTwice` | game-server/netcode-core/net/udp/udp_transport.cpp:256-275 | a run with 2^15 + 2 sends whose deliveries 1, 2^15, 2^15 + 2, 1 are all handed over |
| `UdpProtocol.AtMostOnceExactly` | game-server/netcode-core/net/udp/udp_transport.cpp:246-339 | every run with at most n sends from each end delivers at most once (twice only what was leapt over) if and only if n <= 2^15 + 1 |
| `UdpSchedule.RetransmitsExactly` | game-server/netcode-core/net/udp/udp_transport.cpp:131-165 | in every run and for every clock: an update at now drops a packet first sent 500 ms before or earlier; of a younger one exactly one copy leaves, under its number and with the current acknowledgement, if and only if 50, 75, 112, 168 or 253 ms (for 0 to 4 retries) have passed since it was last sent, and then there is one retry more |
| `UdpSchedule.AlwaysTimed` | game-server/netcode-core/net/udp/udp_transport.cpp:107-112 | in every run the next transmission of a pending packet is set one waiting time after its last one |
| `UdpSchedule.CopiesLeaveAt` | game-server/netcode-core/net/udp/udp_transport.cpp:131-165 | with an update every millisecond and anything else in between, copies of an unacknowledged packet leave 0, 50, 125, 237 and 405 ms after it was sent, at no other time, and at 500 ms it is gone |
| `UdpSchedule.CopiesTravel` | game-server/netcode-core/net/udp/udp_transport.cpp:167-169 | what an update sends is under way to the far end |
| `UdpSchedule.SendTravels` | game-server/netcode-core/net/udp/udp_transport.cpp:126-129 | and so is what a send sends |
| `UdpSchedule.SendsExactly` | game-server/netcode-core/net/udp/udp_transport.cpp:90-119 | in every run a send is refused, and counted, if and only if it is reliable and 32 packets are pending; else one flight leaves under the next number, and a reliable one is filed for 50 ms later |
| `UdpSchedule.UpdateCounts` | game-server/netcode-core/net/udp/udp_transport.cpp:140-155 | the retry counter counts the copies, the timeout counter the packets dropped |
| `UdpSchedule.ArrivalExactly` | game-server/netcode-core/net/udp/udp_transport.cpp:256-275 | in a fresh run, in numbers: which arrivals are handed over, which count as duplicates and which as old |
| `UdpSchedule.AckClearsExactly` | game-server/netcode-core/net/udp/udp_transport.cpp:282-292 | in a fresh run the next packet from the far end, once it arrives, clears exactly the pending packets whose numbers the far end accepted among the 32 before its newest (at 32 unless leapt over) |
| `MatchQueue.EraseRepresents` | arena/server/src/matchmaking/match_queue.cpp:41-52 | erasing through the index keeps buckets and index a representation of the map, with that player gone |
| `MatchQueue.InsertRepresents` | arena/server/src/matchmaking/match_queue.cpp:25-35 | inserting behind the last entry of no later order keeps the representation, with that player added |
| `MatchQueue.InMemoryMatchQueue.Upsert` | arena/server/src/matchmaking/match_queue.cpp:12-36 | the queue as a plain map from player to request and order gets exactly this entry, whether or not the player was queued, in whatever bucket |
| `MatchQueue.InMemoryMatchQueue.Link` | arena/server/src/matchmaking/match_queue.cpp:25-35 | the insertion half: bucket position and index entry |
| `MatchQueue.InMemoryMatchQueue.Unlink` | arena/server/src/matchmaking/match_queue.cpp:13-23 | the removal half: node, emptied bucket and index entry |
| `MatchQueue.InMemoryMatchQueue.FindPosition` | arena/server/src/matchmaking/match_queue.cpp:27-33 | the insertion loop finds the position that keeps the bucket sorted by order |
| `MatchQueue.InMemoryMatchQueue.Remove` | arena/server/src/matchmaking/match_queue.cpp:38-54 | removes exactly that player and says whether it was there |
| `MatchQueue.InMemoryMatchQueue.FetchOrdered` | arena/server/src/matchmaking/match_queue.cpp:56-71 | the listing is sorted by rating, then order of arrival, and lists everyone queued once and nobody else |
| `MatchQueue.ListingUnique` | arena/server/src/matchmaking/match_queue.cpp:56-71 | with distinct orders there is only one such listing |
| `MatchQueue.SortSorts` | arena/server/src/matchmaking/match_queue.cpp:64-69 | the sort yields a sorted permutation |
| `MatchQueue.SortOfListed` | arena/server/src/matchmaking/match_queue.cpp:64-69 | the traversal of the buckets is already in order: the sort moves nothing |
| `MatchQueue.InMemoryMatchQueue.Size` | arena/server/src/matchmaking/match_queue.cpp:73 | the size of the index is the number of queued players |
| `Matchmaker.CurrentTolerance` | arena/server/src/matchmaking/match_request.cpp:25-29 | never below 100, also for a request from the future |
| `Matchmaker.CompatibleSymmetric` | arena/server/src/matchmaking/matchmaker.cpp:64-72 | tolerance both ways and regions: compatibility does not depend on who looks |
| `Matchmaker.MayMeetExactly` | arena/server/src/matchmaking/match_request.cpp:25-36 | compatibility in request fields: one region or one of the two any, and the rating gap within 100 plus 25 for every full five seconds waited, for both |
| `Matchmaker.FirstPartner` | arena/server/src/matchmaking/matchmaker.cpp:59-76 | the reference scan, with no early exit: the first eligible player after this one, and that none before it is |
| `Matchmaker.CutIsSound` | arena/server/src/matchmaking/matchmaker.cpp:73-75 | in a listing sorted by rating the early break skips no eligible partner |
| `Matchmaker.PairsDisjoint` | arena/server/src/matchmaking/matchmaker.cpp:50-98 | each pair is compatible, nobody is in two pairs |
| `Matchmaker.PairsMaximal` | arena/server/src/matchmaking/matchmaker.cpp:50-98 | no two of those the greedy pairing leaves are compatible |
| `Matchmaker.PairsServe` | arena/server/src/matchmaking/matchmaker.cpp:51-79 | first come, first served: of two players who may meet, the earlier goes without the later only if it was itself taken, got somebody still earlier, or the later was taken by somebody before it |
| `Matchmaker.LeftoversIncompatible` | arena/server/src/matchmaking/matchmaker.cpp:44-99 | so nobody left in the queue could have been matched with anybody else left |
| `Matchmaker.TotalBump` | arena/server/src/matchmaking/matchmaker.cpp:138-147 | one observation adds one to the total over the wait buckets |
| `Matchmaker.Matchmaker.Enqueue` | arena/server/src/matchmaking/matchmaker.cpp:17-27 | the player is queued with a new, later order, in place of any earlier request |
| `Matchmaker.Matchmaker.Cancel` | arena/server/src/matchmaking/matchmaker.cpp:29-42 | exactly that player leaves the queue, and the result says whether it was there |
| `Matchmaker.Matchmaker.ObserveWait` | arena/server/src/matchmaking/matchmaker.cpp:134-148 | the observation lands in exactly one bar: up to 0, 5, 10, 20, 40 or 80 seconds, or beyond |
| `Matchmaker.Matchmaker.FindPartner` | arena/server/src/matchmaking/matchmaker.cpp:57-76 | the inner loop with its early break still returns the first eligible partner |
| `Matchmaker.Matchmaker.RunMatching` | arena/server/src/matchmaking/matchmaker.cpp:44-111 | in request fields: each match is of two players with one region or an any, each within 100 + 25 k of the other's rating after 5 k seconds; it names both, a region both accept and their mean rating; no two players left may meet; whoever comes first in the listing has the first choice; old queue = new queue + matched players, nobody in two matches; the waits of the matched are added up |
| `Matchmaker.Matchmaker.MatchAt` | arena/server/src/matchmaking/matchmaker.cpp:51-96 | the body of the outer loop carries the pairing on by one position |
| `Matchmaker.Matchmaker.MakeMatch` | arena/server/src/matchmaking/matchmaker.cpp:80-95 | both players leave the queue and the match carries the next number, the truncated mean rating and the resolved region |
| `Matchmaker.Matchmaker.RecordMatch` | arena/server/src/matchmaking/matchmaker.cpp:86-95 | counters, and both waits in the sum and in the bar of the histogram they belong to |
| `ChatJson.EscapeJson` | game-server/gameserver-fundamentals/lab1.3-ws-chat/websocket_session.cpp:340-366 | the loop escapes backslash, quote, newline, carriage return and tab and copies the rest |
| `ChatJson.MakePayload` | game-server/gameserver-fundamentals/lab1.3-ws-chat/websocket_session.cpp:325-338 | the printed object, member by member |
| `ChatJson.SkipSpace` | game-server/gameserver-fundamentals/lab1.3-ws-chat/websocket_session.cpp:429-433 | stops at the first character that is no white space |
| `ChatJson.ParseString` | game-server/gameserver-fundamentals/lab1.3-ws-chat/websocket_session.cpp:380-427 | the in-place string scanner against the scanner on suffixes |
| `ChatJson.ParseJsonObject` | game-server/gameserver-fundamentals/lab1.3-ws-chat/websocket_session.cpp:368-510 | the five-state loop against the recursive parser, result map included when it fails |
| `ChatGrammar.DocumentIsParsed` | game-server/gameserver-fundamentals/lab1.3-ws-chat/websocket_session.cpp:368-510 | completeness: every text of the grammar of accepted documents (white space, escapes, trailing comma, missing final brace, anything after the brace) is accepted, with its meaning |
| `ChatGrammar.Lexicon` | game-server/gameserver-fundamentals/lab1.3-ws-chat/websocket_session.cpp:397-433 | the parser's white space is exactly the six characters, and its escapes exactly the eight pairs, that the grammar lists |
| `ChatGrammar.ParsedIsDocument` | game-server/gameserver-fundamentals/lab1.3-ws-chat/websocket_session.cpp:368-510 | soundness: every accepted text is such a document and the returned map is its meaning |
| `ChatGrammar.AcceptsExactly` | game-server/gameserver-fundamentals/lab1.3-ws-chat/websocket_session.cpp:368-510 | so the parser succeeds with a map if and only if the text is a document denoting that map |
| `ChatGrammar.LiteralIsScanned` | game-server/gameserver-fundamentals/lab1.3-ws-chat/websocket_session.cpp:386-426 | every well-formed literal scans to its value |
| `ChatGrammar.ScannedIsLiteral` | game-server/gameserver-fundamentals/lab1.3-ws-chat/websocket_session.cpp:386-426 | whatever scans is a well-formed literal with that value |
| `ChatRoundTrip.EscapeIsLiteral` | game-server/gameserver-fundamentals/lab1.3-ws-chat/websocket_session.cpp:340-366 | escaping prints a literal whose value is the original, for every string |
| `ChatRoundTrip.RoundTrip` | game-server/gameserver-fundamentals/lab1.3-ws-chat/websocket_session.cpp:325-510 | parsing a printed payload succeeds and returns exactly the map got by inserting type and then the fields in order, for all strings |
| `ChatRoundTrip.LastFieldWins` | game-server/gameserver-fundamentals/lab1.3-ws-chat/websocket_session.cpp:482 | a repeated field keeps its last value |
| `ChatRoundTrip.BarePayload` | game-server/gameserver-fundamentals/lab1.3-ws-chat/websocket_session.cpp:325-338 | the exact text of a payload without further fields |
| `ChatRoundTrip.PayloadGrows` | game-server/gameserver-fundamentals/lab1.3-ws-chat/websocket_session.cpp:329-335 | each further field is printed in front of the closing brace, in this exact text |
| `PongPhysics.DeflectionBound` | game-server/netcode-core/core/physics.cpp:59-64 | a paddle sends at most three quarters of full speed vertically |
| `PongPhysics.AdvanceKeepsSpeed` | game-server/netcode-core/core/physics.cpp:25-95 | the speed is kept exactly and vx^2 stays at least 7/16 of its square, for any sane configuration and step length |
| `PongPhysics.AdvanceStaysOnField` | game-server/netcode-core/core/physics.cpp:28-94 | after any advance from any state the paddles and the ball are on the field, the ball within one radius sideways |
| `PongPhysics.AdvanceScores` | game-server/netcode-core/core/physics.cpp:82-94 | an advance adds one point to one side or none at all |
| `PongPhysics.WorldInvariant` | game-server/netcode-core/core/world.cpp:9-42 | all of this for every run of any inputs and step lengths, and scores together never exceed the tick |
| `PongPhysics.World.constructor` | game-server/netcode-core/core/world.cpp:9-16 | the initial state |
| `PongPhysics.World.SetPlayerInput` | game-server/netcode-core/core/world.cpp:18-42 | the direction is clamped; a spectator changes nothing |
| `PongPhysics.World.StepWorld` | game-server/netcode-core/core/world.cpp:23-28 | one advance, then the tick |
| `PongPhysics.AdvanceInPlace` | game-server/netcode-core/core/physics.cpp:25-95 | the field-by-field assignments against the composed stages |
| `PongRally.LeftwardExactly` | game-server/netcode-core/core/physics.cpp:25-95 | a ball flying left, any step length: returned at full speed from the paddle's face, with the vertical speed of where it hit, if and only if it has come that far and is within half a paddle and a radius of the moved paddle; otherwise past the edge the right player scores and the ball is served to the right from the centre; otherwise it flies on, off the walls |
| `PongRally.RightwardExactly` | game-server/netcode-core/core/physics.cpp:25-95 | the same the other way round |
| `PongRally.RallyExactly` | game-server/netcode-core/core/world.cpp:23-28 | every step of every run of the server's game is one of those cases, with its numbers 800, 480, 12, 96, 8, 420, 380 and 32 |
| `PongRally.InputsExactly` | game-server/netcode-core/core/world.cpp:30-42 | an input turns one side's paddle up, down or still and changes nothing else; a spectator's changes nothing |
| `PongRally.KickOff` | game-server/netcode-core/core/world.cpp:9-16 | the game starts level, the ball in the centre and flying to the right at full speed |
| `DeltaCodec.BytesRoundTrip` | game-server/netcode-core/sync/delta.cpp:12-44 | little-endian bytes read back to the word |
| `DeltaCodec.KeyframeRoundTrip` | game-server/netcode-core/sync/delta.cpp:140-155 | a keyframe reads back to the state with its doubles rounded once, if and only if the directions fit a byte |
| `DeltaCodec.DeltaRoundTrip` | game-server/netcode-core/sync/delta.cpp:157-174 | a delta applied to any base gives the base plus the rounded differences and the encoded score changes, if and only if the directions fit a byte |
| `DeltaCodec.ScoreDeltaExact` | game-server/netcode-core/sync/delta.cpp:111-132 | the 16-bit score field restores the score if and only if the change is in -2^15..2^15-1, also across a wrap of the score |
| `DeltaCodec.CodecRoundTrips` | game-server/netcode-core/sync/delta.cpp:140-174 | the byte codec meets the abstract codec specification the synchronisation proofs use |
| `DeltaCodec.KeyframeLayout` | game-server/netcode-core/sync/delta.cpp:72-83 | the 34 bytes of a keyframe by offset: six little-endian floats, two words, two bytes |
| `DeltaCodec.DeltaLayout` | game-server/netcode-core/sync/delta.cpp:101-117 | the 30 bytes of a delta by offset: six float differences, two 16-bit score changes, two bytes |
| `DeltaCodec.KeyImageFields` | game-server/netcode-core/sync/delta.cpp:85-99 | what a keyframe reads back as, field by field |
| `DeltaCodec.DeltaImageFields` | game-server/netcode-core/sync/delta.cpp:119-136 | what a delta makes of a base, field by field |
| `DeltaCodec.ByteWriter.AppendU32` | game-server/netcode-core/sync/delta.cpp:12-16 | the shift-and-mask loop appends the four bytes |
| `DeltaCodec.ByteWriter.AppendI16` | game-server/netcode-core/sync/delta.cpp:18-22 | two bytes of the two-complement value |
| `DeltaCodec.ByteWriter.WriteState` | game-server/netcode-core/sync/delta.cpp:72-83 | appends the keyframe bytes |
| `DeltaCodec.ByteWriter.WriteDelta` | game-server/netcode-core/sync/delta.cpp:101-117 | appends the delta bytes |
| `DeltaCodec.ReadWord` | game-server/netcode-core/sync/delta.cpp:34-44 | reads the word and moves the offset by four, or fails without moving it |
| `DeltaCodec.ReadHalfword` | game-server/netcode-core/sync/delta.cpp:53-63 | the same for a signed 16-bit value |
| `DeltaCodec.ReadDoubles` | game-server/netcode-core/sync/delta.cpp:46-51 | reads floats one after the other and fails at the first that is not there |
| `DeltaCodec.ReadState` | game-server/netcode-core/sync/delta.cpp:85-99 | field by field, the state of the keyframe, or a failure exactly when bytes are missing |
| `DeltaCodec.ReadDelta` | game-server/netcode-core/sync/delta.cpp:119-136 | field by field, the base moved by the delta, or a failure exactly when bytes are missing |
| `Snapshots.SnapshotGenerator.StoreState` | game-server/netcode-core/sync/snapshot.cpp:73-87 | overwrites a state of the same tick, else appends and keeps the last ones |
| `Snapshots.SnapshotGenerator.PruneHistory` | game-server/netcode-core/sync/snapshot.cpp:89-93 | drops the older front |
| `Snapshots.SnapshotGenerator.EncodeKey` | game-server/netcode-core/sync/snapshot.cpp:41-59 | keyframe payload, history and the last keyframe tick |
| `Snapshots.SnapshotGenerator.EncodeState` | game-server/netcode-core/sync/snapshot.cpp:12-39 | keyframe when due or when the base is gone, else a delta against the last keyframe |
| `Snapshots.KeyTickSchedule` | game-server/netcode-core/sync/snapshot.cpp:13-15 | for any period the keyframe ticks are those that are 1 modulo the period and no others |
| `Snapshots.RememberNext` | game-server/netcode-core/sync/snapshot.cpp:32-36 | in a run the history is the most recent stretch of states; pruning never drops more than the size limit |
| `Snapshots.LastKeyframeKept` | game-server/netcode-core/sync/snapshot.cpp:61-71 | in a run the last keyframe is found if and only if it is at most as many ticks old as the history is long |
| `Snapshots.BaseIsFound` | game-server/netcode-core/sync/snapshot.cpp:21-25 | for any interval and history size: the encoder falls back to a keyframe if and only if the last one is size + 1 ticks old and the interval longer; otherwise a delta finds the state of the last keyframe |
| `Snapshots.EncodeNext` | game-server/netcode-core/sync/snapshot.cpp:12-59 | for any interval and history size: one encode broadcasts the keyframe or delta of the schedule with period min(interval, size + 1) |
| `Snapshots.GeneratorInvariant` | game-server/netcode-core/sync/snapshot.cpp:12-59 | so a generator fed any run broadcasts exactly that schedule |
| `Snapshots.BaseAlwaysFoundExactly` | game-server/netcode-core/sync/snapshot.cpp:21-25 | the base of every delta of every run is found if and only if the interval is at most the history size plus one |
| `Snapshots.CheckpointIsKeyframe` | game-server/netcode-core/apps/pong_udp/pong_udp_server.cpp:84-91 | every checkpoint falls on a keyframe tick: the re-encode is a keyframe, line 88 never runs, and the generator is unchanged |
| `Snapshots.ServerInvariant` | game-server/netcode-core/apps/pong_udp/pong_udp_server.cpp:76-95 | in every server run, with or without rooms, with a history of at least 19, broadcast t is a keyframe exactly when t is 1 mod 20, and otherwise a delta against a keyframe that was itself broadcast less than 20 ticks before |
| `Snapshots.ServerSchedule` | game-server/netcode-core/apps/pong_udp/pong_udp_server.cpp:76-95 | in plain numbers: broadcast t is the keyframe of state t if (t - 1) mod 20 is 0, else the delta from the state that many ticks before |
| `SnapshotDecoding.SnapshotDecoder.Apply` | game-server/netcode-core/sync/snapshot.cpp:98-112 | decodes and stores, or fails without storing |
| `SnapshotDecoding.SnapshotDecoder.StoreState` | game-server/netcode-core/sync/snapshot.cpp:126-131 | keeps the last states up to the size |
| `SnapshotDecoding.TwoRoundings` | game-server/netcode-core/sync/delta.cpp:101-136 | a rounded base plus a rounded difference is within two roundings |
| `SnapshotDecoding.PointsGained` | game-server/netcode-core/core/physics.cpp:82-94 | over any stretch of a run each score grows by at most one per tick |
| `SnapshotDecoding.BaseStillThere` | game-server/netcode-core/sync/snapshot.cpp:103-106 | for any period e, a base less than e ticks back is still in a history of e - 1 |
| `SnapshotDecoding.DecoderTheorem` | game-server/netcode-core/sync/snapshot.cpp:98-131 | for any period: given any in-order part of the broadcasts that has each delta's keyframe, the decoder never fails, returns scores, directions and ticks exactly, and positions and velocities within two roundings, however long the run |
| `SnapshotDecoding.DecodesExactly` | game-server/netcode-core/sync/snapshot.cpp:98-131 | in-order snapshots decode without failing if and only if each delta's keyframe was delivered before it |
| `SnapshotDecoding.SynchronisationTheorem` | game-server/netcode-core/sync/snapshot.cpp:12-131 | the same end to end: for any server run, the byte codec and any losses, decoding succeeds if and only if each delta's keyframe arrived, and is then faithful |
| `SnapshotDecoding.SynchronisationInFields` | game-server/netcode-core/sync/snapshot.cpp:12-131 | the same in plain fields: decoding succeeds if and only if with every snapshot the last keyframe before it, at most 19 ticks earlier, is delivered, and then each field is exact or within two roundings |
| `Prediction.Predictor.Reset` | game-server/netcode-core/sync/prediction.cpp:13 | the prediction starts from the given state |
| `Prediction.Predictor.PredictNext` | game-server/netcode-core/sync/prediction.cpp:15-28 | fails before a reset, else advances the prediction with the given directions |
| `Prediction.AdvanceIgnores` | game-server/netcode-core/core/physics.cpp:25-95 | the physics depends on the signs of the directions and not on the tick |
| `Prediction.FrameAgrees` | game-server/netcode-core/sync/prediction.cpp:15-28 | client and server move alike for all inputs, and agree entirely if and only if the directions were already clamped |
| `Prediction.SessionInvariant` | game-server/netcode-core/sync/reconciliation.cpp:11-56 | in every lockstep session the history stays sorted, bounded and equal in motion to the server states of its ticks |
| `Prediction.NothingToCorrect` | game-server/netcode-core/sync/reconciliation.cpp:27-56 | so reconciling any authoritative state, in any order and any number of times, reports zero error and zero corrected ticks |
| `Prediction.RecordKeepsOrder` | game-server/netcode-core/sync/reconciliation.cpp:11-16 | recording a later tick keeps the history sorted and bounded |
| `Prediction.ReconcileLeavesLater` | game-server/netcode-core/sync/reconciliation.cpp:27-56 | reconcile leaves exactly the predictions later than the authoritative tick, found or not |
| `Prediction.ReportExactly` | game-server/netcode-core/sync/reconciliation.cpp:27-56 | the report: the largest of the ball's distance and the two paddles', for the prediction of that tick, and the number of recorded predictions of that tick or later if the error exceeds the tolerance; nothing for a tick not predicted |
| `Prediction.Reconciler.RecordPrediction` | game-server/netcode-core/sync/reconciliation.cpp:11-16 | appends and pops the front |
| `Prediction.Reconciler.Find` | game-server/netcode-core/sync/reconciliation.cpp:18-25 | the first prediction of that tick |
| `Prediction.Reconciler.ReconcileWith` | game-server/netcode-core/sync/reconciliation.cpp:27-56 | the two erasing branches and the reported error |
| `ConnectionPool.Invariant` | framework/src/milestone-1.3/pool/connection_pool.py:48-92 | every interleaving of any number of threads keeps the pool invariant |
| `ConnectionPool.Conservation` | framework/src/milestone-1.3/pool/connection_pool.py:24-92 | at every reachable state available, in-use and in-transit connections are disjoint, and together are total_connections, never more than the maximum |
| `ConnectionPool.Exclusive` | framework/src/milestone-1.3/pool/connection_pool.py:74-77 | no connection is behind two open wrappers, and one behind an open wrapper is in use and not available |
| `ConnectionPool.ReleaseFindsConnection` | framework/src/milestone-1.3/pool/connection_pool.py:82-86 | with one thread per wrapper no release is ever ignored |
| `PoolHistory.OnlyHealthyOnes` | framework/src/milestone-1.3/pool/connection_pool.py:63-92 | in every interleaving a caller is only given, and the queue only given back, a connection that passed its last health check; only one that failed it is disposed of; none that failed it waits in the queue |
| `PoolHistory.FirstInFirstOut` | framework/src/milestone-1.3/pool/connection_pool.py:53-92 | connections leave the queue in the order in which they entered it |
| `PoolHistory.MakesOneIfRoom` | framework/src/milestone-1.3/pool/connection_pool.py:54-61 | a thread that finds the queue empty gets a new connection if there is room and waits only if there is none |
| `ConnectionPool.SuffixFits` | framework/src/milestone-1.3/pool/connection_pool.py:53-75 | disposing of the front of the queue and taking the next connection keeps the counts |
| `ConnectionPool.Connections.constructor` | framework/src/milestone-1.3/pool/connection_pool.py:24-33 | the minimum number of connections, all available |
| `ConnectionPool.Connections.Acquire` | framework/src/milestone-1.3/pool/connection_pool.py:48-77 | terminates whenever a healthy connection is ever made or none is needed; returns the first healthy connection of the queue having disposed of all before it, else the first healthy new one, and fails only when the connections in use fill the pool |
| `ConnectionPool.Connections.TryOne` | framework/src/milestone-1.3/pool/connection_pool.py:53-75 | one turn of the loop: taken or made, then entered in use or disposed of |
| `ConnectionPool.Connections.TakeOrMake` | framework/src/milestone-1.3/pool/connection_pool.py:53-61 | the head of the queue, or a new connection when it is empty |
| `ConnectionPool.Connections.Release` | framework/src/milestone-1.3/pool/connection_pool.py:79-92 | back to the end of the queue if healthy, else disposed of; an unknown connection changes nothing |
| `ConnectionPool.PooledConnection.Close` | framework/src/milestone-1.3/pool/pooled_connection.py:15-18 | only the first close releases; later ones leave the pool untouched |
| `SessionRuns.StrikeTarget` | arena/server/src/game/game_session.cpp:227-265 | a hit takes a fifth of a living target's health; the fifth hit, and no other, queues a death event |
| `SessionRuns.SweepProgresses` | arena/server/src/game/game_session.cpp:209-269 | over the whole collision pass projectiles only turn into hits and deaths only into queued events, for every traversal order |
| `SessionRuns.TickEffect` | arena/server/src/game/game_session.cpp:199-277 | one tick: what is in the air afterwards plus the new hits is what had not expired |
| `SessionRuns.SessionInvariant` | arena/server/src/game/game_session.cpp:21-277 | in every session run each projectile's owner is present, and spawned = hits + expired + removed + in the air |
| `SessionRuns.ShotsCovered` | arena/server/src/game/game_session.cpp:164-197 | hits landed plus projectiles in the air never exceed shots fired, for every player with a non-empty id |
| `SessionRuns.EmptyIdForgets` | arena/server/src/game/game_session.cpp:24-36 | upserting the empty id zeroes its counters, so the bound then holds if and only if it has nothing in the air |
| `SessionRuns.EmptyIdExactly` | arena/server/src/game/game_session.cpp:21-42 | over a whole run the bound holds for the empty id in every state if and only if every upsert of it finds nothing of it in the air |
| `SessionRuns.EmptyIdFails` | arena/server/src/game/game_session.cpp:24-36 | a run of five steps that ends with one hit, no shot and nothing in the air |
| `SessionRuns.FifthHitKills` | arena/server/src/game/combat.cpp:15-26 | health is what the hits since the last reset leave; a player is dead exactly at the fifth, and announced dead exactly then |
| `SessionRecord.RecordInvariant` | arena/server/src/game/game_session.cpp:199-277 | in every run hits taken, deaths and hits landed of each player, the totals, the queue and the combat log are those read off the record of everything that happened, where a death is the fifth hit on a player since it came or was healed |
| `SessionRecord.DeathsExactlyOnce` | arena/server/src/game/game_session.cpp:125-130 | events drained and pending are exactly those deaths, each once and in order, and a player's death counter is the number of its events since its counters were zeroed |
| `SessionRecord.DeathsSinceCame` | arena/server/src/game/game_session.cpp:251-265 | the counter read off the record is the difference of two counts of death events |
| `SessionRecord.DeathsInOrder` | arena/server/src/game/game_session.cpp:125-130 | whatever happens after a run, its reported deaths only grow at their end |
| `SessionRecord.AddToLogKeepsLast` | arena/server/src/game/combat.cpp:30-38 | the bounded log holds the last events of the unbounded one |
| `SessionRecord.DeadUntilUpserted` | arena/server/src/game/game_session.cpp:164-218 | from its death until it is upserted again a player neither moves, fires nor is hit, however the run goes on |
| `RateOfFire.SpacingInvariant` | arena/server/src/game/game_session.cpp:175-179 | in every run with time not running backwards the projectiles of a player not upserted again are a cooldown apart and within their lifetime |
| `RateOfFire.RateOfFire` | arena/server/src/game/projectile.cpp:37-42 | so at most 15 of them are in the air |
| `SessionGeometry.TouchesIsClose` | arena/server/src/game/game_session.cpp:219-227 | the two-stage hit test is the distance test: dx^2 + dy^2 at most 0.7^2 |
| `SessionGeometry.HitsExactly` | arena/server/src/game/game_session.cpp:199-277 | in every state of every run, for every traversal order: a tick moves each shot 30 m/s; one then 1.5 s old is gone; any other strikes the first living player but its owner within 0.7 m, and flies on only if nobody close to it is left alive; the record grows by exactly those hits |
| `SessionGeometry.CommandExactly` | arena/server/src/game/game_session.cpp:54-99 | an input of no older sequence moves a living player the way its keys say, 5 m/s along one axis or both together, and adds one shot exactly if it fires: asked, alive, aiming a millionth or more and 0.1 s after the last shot |
| `SessionGeometry.ShotExactly` | arena/server/src/game/game_session.cpp:180-190 | the shot starts 0.3 m from its owner in the direction aimed at, which has length one |
| `SessionGeometry.JoinExactly` | arena/server/src/game/game_session.cpp:21-42 | joining heals to 100 and rearms; a player already present keeps place, sequence and counters, any other starts at the origin with none, and nobody else changes |
| `SessionGeometry.LeaveExactly` | arena/server/src/game/game_session.cpp:44-52 | leaving takes the player and every one of its projectiles and nothing else |
| `GameSession.GameSession.UpsertPlayer` | arena/server/src/game/game_session.cpp:21-42 | a present player keeps place and counters; health, announcement and cooldown are reset |
| `GameSession.GameSession.RemovePlayer` | arena/server/src/game/game_session.cpp:44-52 | the player and exactly its projectiles go |
| `GameSession.GameSession.ApplyPlayerInput` | arena/server/src/game/game_session.cpp:54-99 | stale input changes nothing; movement is for the living; then the attempt to fire |
| `GameSession.GameSession.TrySpawnProjectile` | arena/server/src/game/game_session.cpp:164-197 | fires exactly when asked, alive, aiming and cooled down |
| `GameSession.GameSession.UpdateProjectiles` | arena/server/src/game/game_session.cpp:199-277 | the three passes of a tick in place, against the function the theorems are about |
| `GameSession.GameSession.AgeInPlace` | arena/server/src/game/projectile.cpp:29-44 | advance and expiry of every projectile |
| `GameSession.GameSession.ScanInPlace` | arena/server/src/game/game_session.cpp:214-268 | one projectile against the players until it hits |
| `GameSession.GameSession.StrikeInPlace` | arena/server/src/game/game_session.cpp:228-266 | the effects of a hit, in the source's order |
| `GameSession.GameSession.EraseInactive` | arena/server/src/game/game_session.cpp:273-276 | keeps the active projectiles in order |
| `GameSession.GameSession.ConsumeDeathEvents` | arena/server/src/game/game_session.cpp:125-130 | returns all pending events and leaves none |
| `Leaderboard.LessIsTotal` | arena/server/src/stats/player_profile_service.cpp:87 | the order of ids is total and strict |
| `Leaderboard.LessIsSooner` | arena/server/src/stats/player_profile_service.cpp:87 | the order of ids is by the first place where they differ |
| `Leaderboard.TopIsUnique` | arena/server/src/stats/leaderboard_store.cpp:40-57 | the top of the ranking is the only list of its length with genuine entries, best first, that skips nobody |
| `Leaderboard.RankingIsPrefix` | arena/server/src/stats/leaderboard_store.cpp:40-57 | the reference ranking, best first, lists everybody once |
| `Leaderboard.BucketsAreDetermined` | arena/server/src/stats/leaderboard_store.cpp:8-17 | an index with the right members and no empty bucket is exactly the scores regrouped |
| `Leaderboard.UnlinkedBuckets` | arena/server/src/stats/leaderboard_store.cpp:8-17 | unlinking a player gives the index of the other scores |
| `Leaderboard.LinkedBuckets` | arena/server/src/stats/leaderboard_store.cpp:27-28 | linking a new player gives the index of the extended scores |
| `Leaderboard.InMemoryLeaderboardStore.Upsert` | arena/server/src/stats/leaderboard_store.cpp:19-29 | scores and index stay the same map, with this score set |
| `Leaderboard.InMemoryLeaderboardStore.Erase` | arena/server/src/stats/leaderboard_store.cpp:31-38 | scores and index stay the same map, with this player gone |
| `Leaderboard.InMemoryLeaderboardStore.RemoveFromOrdered` | arena/server/src/stats/leaderboard_store.cpp:8-17 | drops the player and an emptied bucket |
| `Leaderboard.InMemoryLeaderboardStore.TopN` | arena/server/src/stats/leaderboard_store.cpp:40-57 | the nested loops with the remaining counter return exactly the first min(n, size) entries of the ranking: genuine scores, higher ones first, equal ones by id, ahead of everybody missing |
| `Leaderboard.InMemoryLeaderboardStore.Get` | arena/server/src/stats/leaderboard_store.cpp:59-65 | the score, if there is one |
| `Profiles.BooksBalance` | arena/server/src/stats/player_profile_service.cpp:33-63 | after any results each aggregate is the sum of that player's lines, wins and losses are counted right, and the two counters count matches and rating updates |
| `Profiles.SumIsTally` | arena/server/src/stats/player_profile_service.cpp:36-45 | each total is the sum of that field over the player's lines |
| `Profiles.RatingsExactly` | arena/server/src/stats/player_profile_service.cpp:47-54 | winner and loser get what the calculator makes of the winner's and the loser's rating in that order, all other ratings stay, and the first rating is 1200 |
| `Profiles.LeaderboardFollows` | arena/server/src/stats/player_profile_service.cpp:57-60 | after any results the leaderboard holds the current ratings of exactly those who have won or lost |
| `Profiles.LeaderboardListsPlayed` | arena/server/src/stats/player_profile_service.cpp:95-103 | the leaderboard listing drops nobody and equals the sorted listing over those who have won or lost |
| `Profiles.ListingsAgreeExactly` | arena/server/src/stats/player_profile_service.cpp:74-104 | for one limit the two listings agree if and only if everybody in the sorted one has won or lost a match |
| `Profiles.ListingsAlwaysAgree` | arena/server/src/stats/player_profile_service.cpp:74-104 | they agree for every limit if and only if everybody with an aggregate has won or lost a match |
| `Profiles.KnownExactly` | arena/server/src/stats/player_profile_service.cpp:36-48 | a player has an aggregate if and only if it won, lost or appears in the lines of some match |
| `Profiles.ListingsAgreeWithoutSpectators` | arena/server/src/stats/player_profile_service.cpp:33-104 | read off the recorded matches before any call: they agree for every limit if and only if everybody who appears in any match has won or lost one |
| `Profiles.ListingsCanDiffer` | arena/server/src/stats/player_profile_service.cpp:36-45 | a match with the line of a third player makes them differ |
| `Profiles.SortingGivesTop` | arena/server/src/stats/player_profile_service.cpp:79-91 | sorting all profiles and cutting the list gives the top of the ranking, in whatever order the map is traversed |
| `Profiles.PlayerProfileService.RecordMatch` | arena/server/src/stats/player_profile_service.cpp:33-63 | the new aggregates, counters and leaderboard, also when winner and loser are one player |
| `Profiles.PlayerProfileService.Settle` | arena/server/src/stats/player_profile_service.cpp:47-54 | wins, losses and ratings through the two references, in order |
| `Profiles.PlayerProfileService.TopProfiles` | arena/server/src/stats/player_profile_service.cpp:74-104 | both paths, against the top of the ranking, each profile with its player's aggregate |
| `TurnCombat.Invariant` | game-server/gameserver-fundamentals/lab1.2-turn-combat/game_state.h:65-175 | in every run a running game has two players or more, all who joined connected and alive, and exactly the finished games have a winner |
| `TurnCombat.WinnerIsFinal` | game-server/gameserver-fundamentals/lab1.2-turn-combat/game_state.h:78-175 | a finished game has one winner and nothing that happens later changes it or restarts the game |
| `TurnCombat.RecoveryNeedsAVacancy` | game-server/gameserver-fundamentals/lab1.2-turn-combat/game_state.h:154-175 | the recovery at the end of a tick acts if and only if a join during the battle left a vacant place |
| `TurnCombat.RecoveryHappens` | game-server/gameserver-fundamentals/lab1.2-turn-combat/game_state.h:65-71 | it does act: two players in battle and a third joining one place too far |
| `TurnCombat.NoVacancy` | game-server/gameserver-fundamentals/lab1.2-turn-combat/game_state.h:159-174 | with contiguous ids, as the server hands them out, it never acts |
| `TurnCombat.DisconnectExactly` | game-server/gameserver-fundamentals/lab1.2-turn-combat/game_state.h:78-97 | the first player of that id is marked; a running battle ends and its winner is the first still connected player with another id |
| `TurnCombat.RecoveryExactly` | game-server/gameserver-fundamentals/lab1.2-turn-combat/game_state.h:154-175 | somebody out of the battle ends it for the first one still connected and alive |
| `TurnCombat.AttackExactly` | game-server/gameserver-fundamentals/lab1.2-turn-combat/game_state.h:122-152 | who may attack, what the next player loses, and who then has the turn or has won |
| `TurnCombat.JoinExactly` | game-server/gameserver-fundamentals/lab1.2-turn-combat/game_state.h:65-76 | the place of that number at full health, vacant places before it, nobody else changed |
| `TurnCombat.StartExactly` | game-server/gameserver-fundamentals/lab1.2-turn-combat/game_state.h:99-120 | when a game starts, and that all are then healed |
| `TurnCombat.OnlyTheTurnLands` | game-server/gameserver-fundamentals/lab1.2-turn-combat/game_state.h:122-152 | during a battle an attack lands if and only if it comes from the player whose turn it is |
| `TurnCombat.BattleLength` | game-server/gameserver-fundamentals/lab1.2-turn-combat/game_state.h:99-152 | every battle of n players without joins has blows that go round in strict order, and at most 19 n + 1 of them: 39 for two |
| `TurnCombat.BattleOutcome` | game-server/gameserver-fundamentals/lab1.2-turn-combat/game_state.h:122-152 | without disconnections it ends with a final blow after at least 6 n + 1 of them: 13 for two; the last attacker wins and only its neighbour fell |
| `TurnCombat.BoundsAreReached` | game-server/gameserver-fundamentals/lab1.2-turn-combat/game_state.h:138-152 | both bounds are met by two players |
| `TurnCombat.GameState.IndexForPlayer` | game-server/gameserver-fundamentals/lab1.2-turn-combat/game_state.h:216-223 | the first index with that id, or the number of players |
| `TurnCombat.GameState.AddOrUpdatePlayer` | game-server/gameserver-fundamentals/lab1.2-turn-combat/game_state.h:65-76 | the place is created if need be, with vacant ones before it, and taken at full health |
| `TurnCombat.GameState.MarkPlayerDisconnected` | game-server/gameserver-fundamentals/lab1.2-turn-combat/game_state.h:78-97 | during a battle it ends the game and the first other connected player wins |
| `TurnCombat.GameState.StartIfReady` | game-server/gameserver-fundamentals/lab1.2-turn-combat/game_state.h:99-120 | starts if two or more, all joined and connected, and nothing runs or is over |
| `TurnCombat.GameState.ApplyAttack` | game-server/gameserver-fundamentals/lab1.2-turn-combat/game_state.h:122-152 | the defender is struck, and either the game ends or the turn passes on |
| `TurnCombat.GameState.AdvanceTick` | game-server/gameserver-fundamentals/lab1.2-turn-combat/game_state.h:154-175 | the recovery branch, against its specification |

## Left out

- Sockets, HTTP and WebSocket plumbing, timers and threads of the servers; PostgreSQL, Redis, Kafka and Elasticsearch clients, including the Redis matchmaker, queue, leaderboard and room manager: their state lives elsewhere.
- The web back ends, the React and video-editor front ends, and the ray-tracing server's copy of the arena: thin layers or duplicates.
- Log and metrics text, match id strings, serialisation of profiles, the names and the last-action text of the turn-based game.
- `UdpEndpoint.UdpTransport.UpdatePending` and the other transport methods keep one peer's link; the map from addresses to peers, in which links are independent, is not modelled, and the counters are per link.
- `UdpProtocol.DeliveredAtMostOnce`: assumes no delivery more than half the sequence space away from the newest accepted number; for longer runs nothing is claimed beyond `AckSafety`, `DeliveryIntegrity` and `Conservation`, which hold for runs of any length.
- `UdpSchedule.AckClearsExactly`: for pending packets less than half the sequence space from the newest number the far end accepted, and for fresh runs.
- `PongRally.RallyExactly`: for steps of no negative length; `PongPhysics.WorldInvariant` holds for any.
- `Snapshots.ServerInvariant`: the truncation of the tick to 32 bits in the wire message is not modelled.
- `SnapshotDecoding.SynchronisationTheorem`: snapshots arrive in order of their ticks, each at most once; snapshots that overtake each other are not modelled.
- `ConnectionPool.Conservation`: a counter update is one atomic step and a wrapper is used by one thread; two threads racing on an unlocked decrement, or closing one wrapper at once, are not modelled.
- `ConnectionPool.Connections.Acquire`: requires that a healthy connection is made sooner or later if one must be, since otherwise the source's loop does not end; waiting on the empty queue appears in the state machine only.
- The leak detector of the pool: it only records times.
- `Matchmaker.CurrentTolerance`: the cast of a waiting time beyond the range of `int` is not modelled; match identifiers are numbers.
- `Matchmaker.Matchmaker.RunMatching`: the notification and the callback after the lock is released are not modelled.
- `MatchQueue.SortSorts`: the library sort is modelled as insertion sort; as the listing is already in order the choice does not matter.
- `GameSession.GameSession.ApplyPlayerInput`: the facing angle is omitted, and so is the projectile constructor's second normalisation, which divides a unit vector by one.
- `RateOfFire.RateOfFire`: time does not run backwards, and the player was not upserted again while present, which resets its cooldown.
- `Profiles.PlayerProfileService.RecordMatch`: the Elo formula is an arbitrary function of the two ratings; the aggregates' 64-bit counters do not wrap.
- `Prediction.SessionInvariant`: `Predictor` and `World` are given the same inputs frame by frame; inputs lost on the way to the server are not modelled.
- `TurnCombat.BattleLength`: joins during the battle are excluded, as they restore health; disconnections are allowed.
- `time_sync`, the lab 1.4 copy of the pong physics, chat rooms and nicknames: little would be added.
