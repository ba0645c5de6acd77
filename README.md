# restund core, modelled in Dafny

restund is a STUN and TURN server (RFC 5389, RFC 5766, RFC 5780, RFC 6156).
This project models its core and proves properties of the model:

- the UDP and TCP transports: listener lists, TCP stream reassembly, the idle-connection reaper and the alternate-socket selector;
- the STUN dispatcher, which offers each message to a chain of request, indication or raw hooks;
- the control-command registry;
- the statistics module;
- the authentication module, with its nonces;
- the credential and traffic-record database;
- the Binding responder;
- the TURN module: allocations, permissions, channels, the request, indication and raw (ChannelData) handlers, relaying in both directions and module initialisation.

Each source file becomes one Dafny module:

| module | file | source |
|---|---|---|
| `Net` | `net.dfy` | socket addresses, protocols, fixed-width integers |
| `StunMsg` | `stunmsg.dfy` | decoded STUN messages and replies |
| `Text` | `text.dfy` | numerals and hex text |
| `Listeners` | `listeners.dfy` | the walk shared by the UDP and TCP socket selectors |
| `Sizing` | `sizing.dfy` | the hash-table sizing loop |
| `Dispatch` | `dispatch.dfy` | `src/stun.c` |
| `Udp` | `udp.dfy` | `src/udp.c` |
| `Tcp` | `tcp.dfy` | `src/tcp.c` |
| `Cmd` | `cmd.dfy` | `src/cmd.c` |
| `Stat` | `stat.dfy` | `modules/stat/stat.c` |
| `Db` | `db.dfy` | `src/db.c` |
| `Auth` | `auth.dfy` | `modules/auth/auth.c` |
| `BindingResponder` | `binding.dfy` | `modules/binding/binding.c` |
| `Perm` | `perm.dfy` | `modules/turn/perm.c` |
| `Chan` | `chan.dfy` | `modules/turn/chan.c` |
| `TurnState` | `turnstate.dfy` | the state of `modules/turn/turn.h` |
| `Alloc` | `alloc.dfy` | `modules/turn/alloc.c` |
| `Turn` | `turn.dfy` | `modules/turn/turn.c` |

## How the model is shaped

Code that keeps state the source updates in place is modelled as a class:

- the dispatcher chain;
- the command registry;
- the UDP and TCP servers and each TCP connection;
- the statistics counters;
- the database;
- the permission and channel tables;
- the module-wide channel counter `chan_cur`, one object every allocation's channel list shares;
- each allocation;
- the TURN module's state.

Each method's `ensures` states the new state as a function of the old one. Pure logic is modelled with functions and lemmas.

The source's linked lists and hash tables become sequences in insertion order. A hash lookup becomes a first-match search over that sequence.

Foreign code is passed in as parameters:

- libre's encoders and decoders;
- MD5 and the address hash;
- the socket layer's answers (bind and send results, the TCP send-queue size);
- the clock;
- the relay-port allocator.

## Model

| member | source | states |
|---|---|---|
| Listeners.Pick | src/tcp.c:353-373 | the selected listener is the first in list order that neither filter passes over, and there is none exactly when every listener is passed over |
| Listeners.Select | src/tcp.c:356-372 | the `while (le)` walk returns exactly the listener `Pick` specifies |
| Sizing.BucketCount | modules/turn/turn.c:349-350 | the loop ends with `2 <= x <= 31` and a size `2^x` that is at least 4 and at least `n`, and every smaller exponent from 2 up gives less than `n` |
| Sizing.BucketCountLeast | src/db.c:136-137 | the size chosen is the least power of two (at least 4) that holds `n` |
| Dispatch.EligibleMembers | src/stun.c:57-65 | a chain walk reaches exactly the handlers that have a hook of its kind |
| Dispatch.OfferStopsAtFirstClaim | src/stun.c:57-77 | the handlers called are a prefix of the eligible ones, in order; every one but the last declined; the message is claimed exactly when the last accepted; an unclaimed message went to every eligible handler |
| Dispatch.Process | src/stun.c:20-88 | a null argument ignores the packet; an undecodable one goes to the raw chain; a request or indication goes to its chain with a fresh context holding the unknown attributes; other classes go to no chain |
| Dispatch.Walk | src/stun.c:69-78 | the loop over the chain yields exactly `Offer` over the eligible handlers |
| Dispatch.Dispatcher.Register | src/stun.c:91-97 | null is a no-op; otherwise the record is appended at the tail and records stay distinct |
| Dispatch.Dispatcher.Unregister | src/stun.c:100-106 | null is a no-op; otherwise exactly that record is unlinked |
| Dispatch.Dispatcher.ProcessMsg | src/stun.c:20-88 | the method's outcome equals `Process` on the current chain |
| Dispatch.Without | src/stun.c:100-106 | the chain after unlinking holds exactly the other records |
| Dispatch.WithoutDistinct | src/stun.c:100-106 | unlinking keeps the records of a valid chain distinct |
| Dispatch.WithoutRemovesOne | src/stun.c:100-106 | unlinking a record of a valid chain removes exactly that one record and keeps the order of the others |
| Udp.Deliver | src/udp.c:22-27 | every datagram becomes a UDP packet from its source to the listener's bound address on the listener's socket |
| Udp.UdpServer.Listen | src/udp.c:39-76 | an unparsable address, the any-address or port 0 gives EINVAL and a failed bind gives its error, in both cases with the list unchanged; otherwise the listener is appended |
| Udp.UdpServer.Init | src/udp.c:79-98 | the list starts empty; success exactly when every directive is accepted, and then the listeners are one per directive, in order; the first error flushes the list |
| Udp.UdpServer.Socket | src/udp.c:107-127 | the corrected selector: the first listener on another IP (when asked) and another port (when asked) |
| Udp.UdpServer.SocketAsWritten | src/udp.c:116-117 | the released selector compares ports (`SA_PORT`) for the change-IP filter |
| Udp.ChangeIpGivesOtherIp | src/udp.c:112-123 | with the corrected comparison a change-IP answer comes from another IP, and none is returned exactly when every listener shares the IP (or, when asked, the port) |
| Udp.SocketAsWrittenKeepsIp | src/udp.c:116-117 | with listeners 1.2.3.4:3478 and 1.2.3.4:3479, the released comparison answers a change-IP request on 1.2.3.4:3478 from the same IP |
| Tcp.Align4Bounds | src/tcp.c:123-125 | the aligned length is a multiple of 4 |
| Tcp.AlignUp | src/tcp.c:123-125 | the counting loop ends on `Align4(n)`: a multiple of 4, at least `n` and less than `n + 4` |
| Tcp.HeaderOfBounds | src/tcp.c:94-108 | a length above 2048 is a bad length, a type from 0x8000 up with an acceptable length is a bad type, and a whole frame is between 4 and 2068 bytes long |
| Tcp.DecodeSane | src/tcp.c:91-108 | the header decoder never announces a frame shorter than its own header, so the scan always moves forward |
| Tcp.FramesSound | src/tcp.c:83-134 | the scan delivers well-framed frames laid back to back on 4-byte boundaries; the cursor moves by exactly their padded sizes; the scan stops only at an incomplete frame, the end of the bytes, or a framing error |
| Tcp.FramesExtend | src/tcp.c:64-81 | appending bytes to the buffer leaves the frames already complete unchanged; the longer buffer yields them and then what the new bytes complete |
| Tcp.ReceiveValid | src/tcp.c:59-143 | one `tcp_recv` call leaves a valid receive state, drops the buffer after a framing error and delivers only well-framed frames |
| Tcp.ReceiveTracks | src/tcp.c:59-143 | with the corrected padding handling, a connection delivers exactly the frames of the whole stream, in order, and reports a framing error exactly when the whole-stream scan meets one, whatever the chunk boundaries |
| Tcp.FeedDeliversStream | src/tcp.c:59-143 | over an error-free stream, any sequence of chunks delivers the frames of the whole stream |
| Tcp.FeedTwo | src/tcp.c:59-143 | two chunks deliver the first call's frames, then the second call's frames from the state the first left |
| Tcp.SecondSegmentAsWritten | src/tcp.c:123-133 | in the released code, a segment that starts with the previous frame's padding delivers nothing |
| Tcp.SecondSegmentCorrected | src/tcp.c:123-133 | with the owed padding dropped first, the same segment delivers its frame |
| Tcp.OneSegment | src/tcp.c:83-134 | the two-frame counterexample stream sent in one segment delivers both frames |
| Tcp.FirstSegment | src/tcp.c:123-133 | the first frame is delivered, and the corrected state remembers the three padding bytes still owed |
| Tcp.PaddingSplitLosesFrame | src/tcp.c:123-133 | split after the fifth byte, the released reassembly loses the second frame, and the corrected one delivers both |
| Tcp.Conn.Recv | src/tcp.c:59-143 | the frames handed to the dispatcher and the new buffer state are those `Receive` specifies |
| Tcp.Scan | src/tcp.c:83-134 | the `for (;;)` loop yields exactly the frames, stop position and error flag of `Frames` |
| Tcp.Survivors | src/tcp.c:166-174 | corrected (as written see `Tcp.SurvivorsAsWritten`): the reaper keeps exactly the connections that are in use or at most 60 seconds old, in list order |
| Tcp.SurvivorsAppend | src/tcp.c:167-174 | corrected: the reaper's decision for one connection does not depend on the others |
| Tcp.SurvivorsAsWritten | src/tcp.c:167-174 | as written: the walk ends after the first connection it closes, so at most one connection goes; every connection to keep stays, and nothing new appears |
| Tcp.ReaperStopsAsWritten | src/tcp.c:167-174 | two idle connections older than 60 seconds: the loop as written closes only the first, the corrected reaper both |
| Tcp.SurvivorsAll | src/tcp.c:167-174 | a reaper that keeps every connection leaves the list as it is |
| Tcp.SurvivorsAsWrittenAgree | src/tcp.c:167-174 | when no connection to close follows the first one, the loop as written and the corrected reaper leave the same list |
| Tcp.TcpServer.Accept | src/tcp.c:156-210 | corrected reaper (`Tcp.Survivors`): the reaper runs first; the new connection, with no buffer, its creation time and its peer, is appended exactly when accepting succeeds |
| Tcp.TcpServer.OnData | src/tcp.c:59-143 | corrected: each delivered frame becomes a TCP packet from the connection's peer to its local address, with the padding owed after a ChannelData frame skipped before the next header (the code as written is `Tcp.PaddingSplitLosesFrame`); on a framing error an idle connection is unlinked and a busy one only loses its buffer |
| Tcp.TcpServer.Socket | src/tcp.c:353-373 | the first listener on another IP (when asked) and another port (when asked) |
| Tcp.Unlinked | src/tcp.c:41-50 | destroying a connection removes exactly it from the connection list |
| Text.HexVal | modules/auth/auth.c:60-64 | a hex digit of either case gives its value, below 16; any other character gives 0 |
| Text.NumeralRoundTrip | modules/stat/stat.c:75-79 | the `%u` numeral of a value is non-empty, holds only digits and reads back as the value |
| Text.Hex64 | modules/auth/auth.c:37-38 | `%llx` of a 64-bit value has between 1 and 16 digits |
| Text.Hex64RoundTrip | modules/auth/auth.c:66 | `pl_x64` reads back what `%llx` printed |
| Text.HexBytes | modules/auth/auth.c:37-38 | `%w` prints two digits per byte, and the digit-pair decoding gives the bytes back |
| Text.UnHexBytes | modules/auth/auth.c:60-64 | byte `k` comes from characters `2k` and `2k+1`; the result has half the length |
| Text.ParseX64 | modules/auth/auth.c:66 | a string with a character that is not a hex digit reads as 0 |
| Cmd.MatchingMembers | src/cmd.c:26-39 | a subscriber runs exactly when it has a handler and its name is the command |
| Cmd.SubscribeRunsLast | src/cmd.c:46-52 | a new subscriber runs after every earlier one |
| Cmd.UnsubscribeRemovesRun | src/cmd.c:55-61 | unsubscribing removes exactly that subscriber's run and keeps the order of the others |
| Cmd.Registry.Subscribe | src/cmd.c:46-52 | null is ignored; any other subscriber is appended |
| Cmd.Registry.Unsubscribe | src/cmd.c:55-61 | null is ignored; otherwise exactly that subscriber is unlinked |
| Cmd.Registry.Run | src/cmd.c:16-43 | with a null command or buffer nothing is appended; otherwise the output of every matching handler in list order, or the not-found line when none matched |
| Stat.CounterOf | modules/stat/stat.c:42-67 | each of Binding, Allocate, Refresh and ChannelBind has its own counter; any other method is counted as unknown exactly when the magic cookie is present |
| Stat.Stats.Request | modules/stat/stat.c:32-70 | the hook never claims; the request's counter goes up by one with 32-bit wrap-around, and no other counter changes |
| Stat.Stats.Print | modules/stat/stat.c:73-80 | appends the five-line report of the current counters |
| Stat.ReportDetermines | modules/stat/stat.c:73-80 | the report can be read back: different counter values never print the same text |
| Stat.LineSplit | modules/stat/stat.c:75 | one report line determines its value and what follows it |
| Db.ParseAccount | src/db.c:86-118 | a row loads exactly when its HA1 text has 32 characters, keeping the user name; otherwise EINVAL |
| Db.ParseAccountRoundTrip | src/db.c:105 | an HA1 written as 32 hex digits loads as the key it spells |
| Db.LoadAll | src/db.c:146-150 | loading succeeds exactly when every row's HA1 has 32 characters, and then gives one account per row, in row order |
| Db.LoadStops | src/db.c:146-150 | once a prefix of the rows fails to load, the whole load fails with the same error |
| Db.FirstUser | src/db.c:326-328 | the lookup finds the first account with that name, or none when no account has it |
| Db.LoadedLookup | src/db.c:313-339 | after a load, a user is known exactly when some row has that name, and the key is the HA1 of the first such row |
| Db.DrainKeepsOrder | src/db.c:170-209 | draining loses and reorders nothing; it stops exactly at a failed write, which stays at the head; without a writer every record is dropped |
| Db.Database.Init | src/db.c:354-381 | the configured realm replaces the default; with a back-end the thread's error is returned and the database runs when there is none |
| Db.Database.Close | src/db.c:384-413 | a running database saves its queued traffic records once more, as `Drain` takes them (the thread's last `save_traffic_records` before it quits, src/db.c:245-248); what was not written is flushed, the database stops and the credential table is dropped; a stopped database writes nothing |
| Db.Database.LogTraffic | src/db.c:270-310 | a missing address or statistics block gives EINVAL; a record is queued at the tail only when the database runs with a writer, a missing user name becoming "" |
| Db.Database.SaveTrafficRecords | src/db.c:170-209 | the records taken and the queue left are exactly those of `Drain` |
| Db.Database.GetHa1 | src/db.c:313-339 | a missing name or buffer gives EINVAL; otherwise the answer of the loaded table (ENOENT when stopped or unknown) |
| Db.Database.SyncCredentials | src/db.c:121-167 | without both handlers nothing happens; a count or load error is returned and the old table stays; otherwise the new table replaces it, sized to the least power of two of at least 4 that holds the count |
| Auth.Configure | modules/auth/auth.c:186-191 | the nonce lifetime is the configured one, or 3600 seconds by default |
| Auth.MkNonce | modules/auth/auth.c:26-41 | a nonce is between 33 and 48 characters long |
| Auth.NonceValidate | modules/auth/auth.c:44-85 | the decoding loop accepts exactly the nonces `NonceValid` describes |
| Auth.NonceRoundTrip | modules/auth/auth.c:26-85 | a nonce issued at `t` to `src` is accepted from `src2` at `now` exactly when `src2` gives the same digest and `now` lies within the lifetime |
| Auth.ChallengeLifetime | modules/auth/auth.c:77-82 | a nonce stays valid for the client it was issued to for the whole lifetime, and no longer |
| Auth.Handle | modules/auth/auth.c:88-178 | a request with a key is passed on unchanged; a request without one is passed on with the user's key exactly when it is authentic; without MESSAGE-INTEGRITY the answer is 401 with realm and a fresh nonce; with it but without USERNAME, REALM or NONCE, 400 carrying only SOFTWARE; with a stale or foreign nonce, 438; with an unknown user (the scratch key) or a failed integrity check, 401; refusals carry no key |
| Auth.ChallengeAnswered | modules/auth/auth.c:106-132 | the 401 or 438 answer carries a NONCE that passes the nonce check for the same client address at any later time within the nonce lifetime |
| Perm.FindIp | modules/turn/perm.c:61-77 | the lookup finds the first entry with the peer's family and IP address, or none when no entry has them |
| Perm.PortIgnored | modules/turn/perm.c:61-66 | permissions are matched by IP address only: the peer's port never changes the entry found |
| Perm.Farewell | modules/turn/perm.c:36-58 | a destroyed permission logs one traffic record (client, relay, peer, start, end now, its counters) exactly when a packet was relayed in either direction |
| Perm.Lookup | modules/turn/perm.c:69-89 | a live entry (`expires >= now`) for the IP is found and nothing changes; an expired first match is destroyed and nothing is found; at most one entry is removed, and only an expired one |
| Perm.Counted | modules/turn/perm.c:129-146 | only the counted entry's counters change |
| Perm.PermTable.Find | modules/turn/perm.c:69-89 | the table after the lookup and the entry found are those of `Lookup`; the table keeps one entry per IP; when nothing live is found no entry for that IP is left |
| Perm.PermTable.Create | modules/turn/perm.c:92-115 | appends a fresh entry with zero counters, started now and expiring after 300 seconds |
| Perm.PermTable.Refresh | modules/turn/perm.c:118-126 | null is left alone; otherwise only that entry's expiry moves to now plus 300 seconds |
| Perm.PermTable.Stat | modules/turn/perm.c:129-146 | null is left alone; otherwise one packet and `n` bytes are counted in one direction, with 64-bit wrap-around |
| Perm.PermTable.Destroy | modules/turn/perm.c:36-58 | removes exactly that entry and logs its traffic record |
| Perm.PermTable.Flush | modules/turn/perm.c:36-58 | every entry is destroyed in order and the traffic of each is logged |
| Perm.EvictLeavesNone | modules/turn/perm.c:81-86 | destroying the unique entry for an IP leaves no entry for it, and the table keeps one entry per IP address and no new entry |
| Perm.StageAccounted | modules/turn/perm.c:179-206 | staging loses nothing: every original entry is in the table, staged unchanged or destroyed as expired; the table holds no new entry; staged new entries carry the full lifetime |
| Perm.RollbackRestores | modules/turn/perm.c:209-223 | a failed CreatePermission leaves exactly the original entries, unrefreshed, less the expired ones the lookups destroyed |
| Perm.StageCovers | modules/turn/perm.c:179-206 | without a family mismatch, every requested peer IP has a staged entry |
| Perm.CommitGrants | modules/turn/perm.c:226-240 | a committed CreatePermission gives every requested peer IP a permission lasting the full lifetime from now, whether new or refreshed |
| Perm.CommitKeepsUnique | modules/turn/perm.c:179-240 | the corrected handler keeps one permission per peer IP through commit |
| Perm.RollbackKeepsUnique | modules/turn/perm.c:209-223 | rolling back re-appends only entries that were there before, so the table keeps one entry per IP |
| Perm.DuplicatePeerAsWritten | modules/turn/perm.c:192-203 | the handler as written commits two entries for one IP when a request names it twice with different ports |
| Perm.CreatePermission | modules/turn/perm.c:243-293 | corrected (one permission per peer IP; the code as written is `Perm.DuplicatePeerAsWritten`): the reply and new table are those of `Answer`: 443 and the rollback on a family mismatch, 400 and the unchanged table without XOR-PEER-ADDRESS, otherwise success with the staging committed when the reply is sent and rolled back when it is not; the log is the staging's; the table stays valid |
| Perm.StageAll | modules/turn/perm.c:255 | corrected (a peer already staged is looked up in the staged list too): the attribute walk gives exactly the staging `Stage` specifies, and keeps table and staging list separate |
| Perm.StagePeer | modules/turn/perm.c:179-206 | one XOR-PEER-ADDRESS is staged as `StageOne` specifies |
| Perm.RollbackTable | modules/turn/perm.c:209-223 | the walk gives exactly `Rollback` |
| Perm.CommitTable | modules/turn/perm.c:226-240 | the walk gives exactly `Commit` |
| Chan.FindNumb | modules/turn/chan.c:59-65 | the lookup by number finds the first channel with that number, or none |
| Chan.FindPeer | modules/turn/chan.c:68-73 | the lookup by peer finds the first channel bound to that address and port, or none |
| Chan.NumbLookupSound | modules/turn/chan.c:76-96 | a lookup by number keeps the bindings valid and finds a live channel with that number unchanged; otherwise no channel with that number is left; at most one expired channel is removed |
| Chan.PeerLookupSound | modules/turn/chan.c:99-119 | the same for the lookup by peer |
| Chan.RemoveAtBindings | modules/turn/chan.c:46-56 | destroying a channel keeps numbers valid and unique and peers unique |
| Chan.ChanList.NumbFind | modules/turn/chan.c:76-96 | the list after the lookup and the channel found are those of `NumbLookup`; `chan_cur` drops by each expired channel destroyed |
| Chan.ChanList.PeerFind | modules/turn/chan.c:99-119 | the list after the lookup and the channel found are those of `PeerLookup`; `chan_cur` drops by each expired channel destroyed |
| Chan.ChanList.Create | modules/turn/chan.c:187-213 | appends a binding of the number to the peer lasting 600 seconds and adds one to `chan_cur`, wrapping at 2^64 |
| Chan.ChanList.Refresh | modules/turn/chan.c:216-225 | null is left alone; otherwise only that channel's expiry moves to now plus 600 seconds |
| Chan.ChanList.Destroy | modules/turn/chan.c:46-56 | removes exactly that channel and takes one from `chan_cur`, wrapping at 2^64 |
| Chan.ChanList.Flush | modules/turn/chan.c:36-43 | every channel goes, and `chan_cur` drops by their number |
| Chan.ChanBind | modules/turn/chan.c:234-318 | the reply is `BindReply`: 400 without a valid CHANNEL-NUMBER or an XOR-PEER-ADDRESS; 443 for a peer of another family; 400 when the live channel of the number and that of the peer differ; otherwise success. The binding and permission are refreshed or created when the reply is sent and what was created is destroyed when it is not; `chan_cur` moves by the change in the list's length; both tables stay valid |
| Chan.BindPeer | modules/turn/chan.c:264-317 | after the checks: both lookups, 400 "Channel/Peer Already Bound" with nothing granted when they found different channels, otherwise success and `Grant`; `chan_cur` follows the list's length |
| Chan.Grant | modules/turn/chan.c:277-317 | the channel is created when there was none and the permission is looked up or created; afterwards both are refreshed, or what was created is destroyed; `chan_cur` follows the list's length |
| Chan.BindKeepsValid | modules/turn/chan.c:277-288 | a successful bind keeps channel numbers valid and unique and peers unique |
| Chan.GrantKeepsValid | modules/turn/chan.c:290-301 | a successful bind keeps one permission per peer IP |
| Chan.AlreadyBoundMeans | modules/turn/chan.c:264-275 | ChannelBind is refused as already bound exactly when a live channel binds the number to another peer, or the peer to another number |
| Chan.BindThenLookup | modules/turn/chan.c:277-317 | after a successful ChannelBind the number leads to the peer, and the peer to the number, for the whole channel lifetime |
| TurnState.FindTuple | modules/turn/turn.c:34-63 | the index found holds an allocation of the 5-tuple (same client and server address and port, same transport) and no earlier one does; past the end when none does |
| TurnState.AppendUnique | modules/turn/alloc.c:326-347 | adding an allocation for a 5-tuple that has none keeps one allocation per 5-tuple |
| TurnState.RemoveUnique | modules/turn/alloc.c:51-66 | unlinking an allocation keeps the 5-tuples unique and the tables owned, removes exactly that allocation and leaves nobody sharing its tables |
| Alloc.Stunaf | modules/turn/alloc.c:21-33 | IPv4 gives family code 0x01, IPv6 0x02 and an unset address 0, each in both directions |
| Alloc.RelayAddr | modules/turn/alloc.c:36-48 | a relay address exists exactly for the IPv4 and IPv6 family codes, and it is the configured one of the family |
| Alloc.AllocLifetime | modules/turn/alloc.c:319-323 | the granted lifetime never exceeds the maximum and is at least 600 seconds when the maximum allows it; without a request, or for one below 600, it is exactly 600 (the maximum when that is lower); it is the requested one when that lies between the two, and the maximum above it |
| Alloc.RefreshLifetime | modules/turn/alloc.c:439-442 | a Refresh gets 0 exactly when 0 is requested (or the maximum is 0), otherwise what an Allocate would get |
| Alloc.TimerDelay | modules/turn/alloc.c:444 | the timer delay in milliseconds is `lifetime * 1000` up to 4294967 seconds, and wraps to less above |
| Alloc.Remaining | modules/turn/alloc.c:244 | no seconds remain once the timer is due |
| Alloc.ReplayLifetime | modules/turn/alloc.c:241-254 | a retransmitted Allocate reports the granted lifetime when it comes at once and never more later |
| Alloc.ListenOutcome | modules/turn/alloc.c:146-189 | on success the relay socket is open on the relay IP, with an even port under EVEN-PORT and the port above reserved under its R flag; on failure no socket stays open |
| Alloc.ListenExhausted | modules/turn/alloc.c:164-188 | when every attempt binds an odd port, EVEN-PORT fails with EADDRINUSE after 32 attempts |
| Alloc.RelayListen | modules/turn/alloc.c:146-189 | the loop leaves the allocation's relay fields and the error that `ListenOutcome` describes |
| Alloc.TokenFields | modules/turn/alloc.c:397-410 | the reservation token gives back the client-address hash, the family code and the port it was built from |
| Alloc.FindHolder | modules/turn/alloc.c:192-224 | the holder found claims the token and no earlier allocation does |
| Alloc.UnreservedClaimedAsWritten | modules/turn/alloc.c:192-204 | as written, a token naming family 0 and port 0 is claimed by an allocation that reserved nothing |
| Alloc.ReservationRedeemable | modules/turn/alloc.c:192-224 | the token an allocation holding a reservation hands out is claimed by that allocation or an earlier holder of the same reservation |
| Alloc.RsvtListen | modules/turn/alloc.c:207-224 | corrected token claim (the holder must hold an open reserved socket; as written see `Alloc.UnreservedClaimedAsWritten`): the holder's reserved socket and address become the new allocation's relay and the holder loses its reservation; ENOENT when nobody holds one |
| Alloc.Destroy | modules/turn/alloc.c:51-66 | permissions are destroyed in order with their traffic logged, channels flushed with `chan_cur` dropping by their number, the allocation unlinked from the table and its sockets closed |
| Alloc.Expire | modules/turn/alloc.c:69-75 | the lifetime timer firing destroys the allocation as `Destroy` says, `chan_cur` included |
| Alloc.Admit | modules/turn/alloc.c:256-317 | an Allocate request is admitted exactly when a relay address of the requested family is configured, the transport is UDP, DONT-FRAGMENT is absent and no token comes with EVEN-PORT or REQUESTED-ADDRESS-FAMILY; otherwise 440, 400, 442 or 420 with the attributes the source sends |
| Alloc.AllocReplyReadable | modules/turn/alloc.c:397-410 | the success response carries the relayed address, the lifetime and the mapped address, and a reservation token exactly when a reserved socket is held |
| Alloc.AllocateRequest | modules/turn/alloc.c:227-417 | corrected token claim (the holder must hold an open reserved socket; as written see `Alloc.UnreservedClaimedAsWritten`): the reply is `AllocateAnswer` of the table before the request: the retransmission answer or 437 for an existing allocation, the `Admit` refusal, 508 without a relay socket, or the success response naming the relay; a new allocation holding the 5-tuple, user, expiry and relay joins the table exactly when the relay was had and the response sent; the allocation whose reservation a RESERVATION-TOKEN redeems (`Redeemed`) loses its reserved socket and address whatever follows, and every other allocation, with its permissions and channels, is unchanged; a refused request changes nothing; `chan_cur` is unchanged |
| Alloc.AllocateOutcome | modules/turn/alloc.c:227-417 | corrected token claim (the holder must hold an open reserved socket; as written see `Alloc.UnreservedClaimedAsWritten`): the Allocate answer goes to the client under the request's key; it is a success exactly for a UDP retransmission or an admitted request given a relay socket; every other answer is 400, 420, 437, 440, 442 or 508 |
| Alloc.NewAllocation | modules/turn/alloc.c:326-416 | corrected token claim (the holder must hold an open reserved socket; as written see `Alloc.UnreservedClaimedAsWritten`): the new allocation holds the request's 5-tuple, user and expiry; 508 when no relay socket is had; on success the response names the relay and the allocation stays only when the response is sent; the token holder (`TokenHolder`) surrenders its reservation and keeps its tables and counters; every other allocation is unchanged; `chan_cur` is unchanged |
| Alloc.Settle | modules/turn/alloc.c:371-416 | corrected token claim (the holder must hold an open reserved socket; as written see `Alloc.UnreservedClaimedAsWritten`): for an allocation just created: the relay socket as `Relayed` computes it, then 508 or the success response as `Respond` states; the token holder surrenders its reservation and every other allocation is unchanged |
| Alloc.Respond | modules/turn/alloc.c:371-416 | 508 or the success response, and the allocation destroyed again on failure or when the response cannot be sent; no allocation that was in the table before it joined changes; `chan_cur` is unchanged |
| Alloc.Create | modules/turn/alloc.c:326-347 | a fresh, empty allocation for the 5-tuple joins the table and the total count |
| Alloc.OpenRelay | modules/turn/alloc.c:371-385 | corrected token claim (the holder must hold an open reserved socket; as written see `Alloc.UnreservedClaimedAsWritten`): the relay socket is the reserved one the token names or one `relay_listen` binds, as `Relayed` computes from the table before the allocation joined it; the token holder loses its reserved socket and address, and no other allocation changes; no permission or channel table changes |
| Alloc.Redeem | modules/turn/alloc.c:207-224 | corrected token claim (the holder must hold an open reserved socket; as written see `Alloc.UnreservedClaimedAsWritten`): with a RESERVATION-TOKEN: ENOENT and nothing changed when no allocation holds the token; otherwise the new allocation relays on the holder's reserved socket and address, the holder surrenders them (`Surrendered`) and keeps its expiry and counters, and every other allocation is unchanged |
| Alloc.RefreshRequest | modules/turn/alloc.c:420-457 | 443 on a family mismatch with nothing changed; otherwise the timer restarts with the granted lifetime, at once for lifetime 0, and the response reports it |
| Alloc.Frame | modules/turn/alloc.c:99-120 | the frame written is the ChannelData frame of the channel number and the data, padded on TCP |
| Alloc.ChannelFrameParse | modules/turn/alloc.c:99-120 | the frame reads back as its channel number, its length and its data, and on TCP is a multiple of four bytes long |
| Alloc.RxBytes | modules/turn/alloc.c:134-142 | the bytes counted are the data plus at most three padding bytes |
| Alloc.ToClient | modules/turn/alloc.c:99-131 | a bound channel gives a ChannelData frame whose length counts the header and the counted bytes; otherwise a Data indication with the peer's address and the data |
| Alloc.PeerData | modules/turn/alloc.c:78-143 | a congested TCP client or a missing permission drops the datagram and counts it; otherwise the client gets `ToClient` and the permission and module counters move by the bytes sent, or the error counter when sending fails; `chan_cur` drops by the expired channels the lookup destroys |
| Alloc.BuildToClient | modules/turn/alloc.c:104-134 | the message built is the ChannelData frame when a channel is bound to the peer, otherwise the Data indication, as `ToClient` states |
| Alloc.Deliver | modules/turn/alloc.c:99-142 | after the permission check the channel lookup, the message to the client and the counters are as `PeerData` states, `chan_cur` included |
| Turn.RouteOf | modules/turn/turn.c:66-121 | requests other than the four TURN methods are left alone; unknown attributes give 420, a missing allocation 437 unless allocating, a USERNAME other than the owner's 441; the rest go to their method's handler with the 5-tuple's allocation |
| Turn.RequestHandler | modules/turn/turn.c:66-145 | corrected token claim (the holder must hold an open reserved socket; as written see `Alloc.UnreservedClaimedAsWritten`): the request is claimed exactly when it is a TURN method; a request that is not claimed or is refused changes no allocation, permission or channel; Allocate replies `AllocateAnswer`, changes only the new allocation and the token holder (`Redeemed`), which surrenders its reservation; Refresh, CreatePermission and ChannelBind reply as `RefreshRequest`, `Perm.Answer` and `BindReply` say and change only the allocation the 5-tuple names; Refresh restarts its timer with the granted lifetime (unchanged on 443) and keeps its relay and drop counters; CreatePermission appends the staging's log to the traffic log, Refresh leaves it, ChannelBind only appends; only ChannelBind moves `chan_cur` |
| Turn.Serve | modules/turn/turn.c:126-136 | Refresh, CreatePermission and ChannelBind on the allocation the 5-tuple names: their replies and `chan_cur` as the handlers state; Refresh restarts the timer with the granted lifetime (unchanged on 443) and keeps the relay, drop counters and tables, CreatePermission keeps the allocation's state and channels and appends the staging's log to the traffic log, ChannelBind keeps its state and only appends to the traffic log; every other allocation is unchanged |
| Turn.OnPermissions | modules/turn/turn.c:130-132 | corrected staging of `Perm.CreatePermission`: the reply and the allocation's new permission table are those of `Perm.Answer`, the traffic log grows by the staging's log, the allocation table and counters stay, and no other allocation's permissions change |
| Turn.OnChannels | modules/turn/turn.c:134-136 | the reply is `BindReply` of the allocation's channels; the traffic log only grows by appending; `chan_cur` moves by the change in the list's length; the allocation table and counters stay; no other allocation's permissions or channels change |
| Turn.Size | modules/turn/turn.c:186 | a byte count below 2^64 is kept as it is |
| Turn.IndicationHandler | modules/turn/turn.c:148-193 | every Send indication is claimed; one without allocation or attributes is discarded and changes no allocation; a missing permission drops and counts it; otherwise the data goes from the relayed address to the peer and the counters move; the allocation's relay, expiry, receive drops and channels stay, and every other allocation is unchanged |
| Turn.Relay | modules/turn/turn.c:175-192 | the permission check, the datagram to the peer and the counters, as `IndicationHandler` states them; the allocation's relay, expiry and channels stay and every other allocation is unchanged |
| Turn.Forward | modules/turn/turn.c:182-190 | the datagram goes to the peer; a send that works is counted on the permission and in the transmitted bytes, one that fails in the transmit errors; no other permission table changes |
| Turn.RawPayload | modules/turn/turn.c:212-216 | the data relayed is exactly the length the header announces |
| Turn.RawPayloadRoundTrip | modules/turn/turn.c:196-239 | a client ChannelData datagram with any padding after its data gives back its data; the bytes after the header are the data and the padding, and equal the data exactly when there is no padding |
| Turn.PaddingRelayedAsWritten | modules/turn/turn.c:228 | as written, a one-byte ChannelData datagram over UDP, padded to four, sends four bytes to the peer |
| Turn.RawHandler | modules/turn/turn.c:196-239 | corrected: not claimed without allocation, with a short header or length, or an unknown channel, and then no allocation changes; without permission the data is dropped, counted in the allocation's transmit drops, and the expired permission the lookup finds is removed; otherwise the `len` bytes the header announces go to the channel's peer (the code as written sends the padding too, `Turn.PaddingRelayedAsWritten`), a send that works is counted on the permission and in the transmitted bytes (`len`), one that fails in the transmit errors; the allocation's relay, expiry and receive drops stay; `chan_cur` drops by the expired channels the lookup destroys; every other allocation is unchanged |
| Turn.Init | modules/turn/turn.c:303-364 | a bad relay address fails with its error and no relay address with EINVAL; otherwise the maximum lifetime is set and the table gets the least power of two of at least 4 buckets holding the maximum number of allocations |
| BindingResponder.Alternate | modules/binding/binding.c:20-34 | corrected (IP compared with `SA_ADDR` over UDP as over TCP): the alternate listener differs in IP when asked and in port when asked; none exactly when every listener fails that |
| BindingResponder.SetPort | modules/binding/binding.c:64-67 | setting a port keeps the family and IP, and sets the port of an IPv4 or IPv6 address |
| BindingResponder.Destination | modules/binding/binding.c:64-67 | the answer goes to the source IP, on RESPONSE-PORT when given |
| BindingResponder.ReplySocket | modules/binding/binding.c:71-76 | corrected, over `Alternate`: over UDP with CHANGE-REQUEST the answer leaves from a listener differing as asked when one exists; otherwise from the receiving socket |
| BindingResponder.OtherAddress | modules/binding/binding.c:59-62 | corrected, over `Alternate`: OTHER-ADDRESS is a complete address of a listener differing in IP and port, and absent when no listener does |
| BindingResponder.OtherAddressAsWritten | modules/binding/binding.c:59-62 | as written, over TCP OTHER-ADDRESS is the corrected one; over UDP it is still a complete listener address on another port, but the listener may share the IP |
| BindingResponder.OtherAddressSameIpAsWritten | modules/binding/binding.c:59-62 | with UDP listeners 1.2.3.4:3478 and 1.2.3.4:3479, a request to 1.2.3.4:3478 gets OTHER-ADDRESS 1.2.3.4:3479, the same IP, where the corrected member gives none |
| BindingResponder.Respond | modules/binding/binding.c:37-98 | corrected, over `ReplySocket` and `OtherAddress`: only Binding requests are answered; unknown attributes give 420; otherwise success to `Destination` from `ReplySocket` |
| BindingResponder.BindingReadable | modules/binding/binding.c:83-89 | the success response carries the source in XOR-MAPPED-ADDRESS and MAPPED-ADDRESS, the receiving address in RESPONSE-ORIGIN, and OTHER-ADDRESS exactly when there is one |

## Left out

- Threads, mutexes and condition variables of the database and statistics code: the model runs one operation at a time.
- The libre library (STUN encoding and decoding, MD5, HMAC, the address hash, mbuf, timers, sockets) is not part of this model. Decoded messages are values; the hash, the socket layer's answers, the send outcome and the TCP queue size are parameters.
- Time is a parameter (`now` in seconds, `nowMs` in timer milliseconds). A timer is the instant it is due, and firing it is the caller calling `Expire`.
- Out-of-memory paths (`ENOMEM`, the 500 answers after a failed allocation, a failed `mbuf_write_u8` while padding) are left out: the model never runs out of memory.
- Configuration reading, handler registration and the module close functions are left out; `Init` takes the configured values as parameters.
- The status and statistics dump handlers of the TURN module (`allocation_status`, `status_handler`, `stats_handler`) only print and are left out.
- The cpuusage, influxdb, syslog, mysql and status modules are outside the core.
- The hash tables (allocations, permissions, channels) are sequences in insertion order. The model does not follow bucket order, and a lookup is a first match over the whole table.
- The receive buffer size `udp_sockbuf_size` is read by `module_init` but not modelled.
- The current-allocation counter is unbounded in the model; its width in the source is not modelled.
- `sa_set` on a malformed relay address may leave the address partly written in the source. The model keeps the error and does not model that partial write.
- A UDP datagram carries fewer than 65536 bytes, which `Alloc.PeerData` and `Alloc.Frame` require, as the 16-bit length the source writes assumes.
- Turn.Init: requires at most 2^31 configured allocations, because the sizing loop shifts past 32 bits above that, which is undefined behaviour in C.
- Turn.OnChannels: states the reply and `chan_cur`, and only that the traffic log grows by appending. The new channel and permission tables are stated by `Chan.ChanBind`.
- Turn.RequestHandler, Turn.Serve: state the reply of every route they serve, the new permission table and traffic log of CreatePermission and the timer Refresh restarts; the new tables after ChannelBind and the log it appends, and (for RequestHandler) the new allocation after Allocate, are stated by `Chan.ChanBind` and `Alloc.AllocateRequest`.
- Tcp.TcpServer.OnData, Perm.CreatePermission, Perm.StageAll, Turn.OnPermissions, Turn.RawHandler: model the corrected behaviour of the findings below, not the code as written; the as-written behaviour is stated by the findings' as-written members.
- Alloc.RsvtListen, Alloc.Redeem, Alloc.OpenRelay, Alloc.Settle, Alloc.NewAllocation, Alloc.AllocateRequest, Alloc.AllocateOutcome, Turn.RequestHandler: model the corrected claim of a RESERVATION-TOKEN, where the holder must also hold an open reserved socket. As written (`rsvt_handler`, alloc.c:192-204), a token with family 0 and port 0 is claimed by an allocation of its bucket that holds no reservation, the allocation being created included; `rsvt_listen` then succeeds with no relay socket and an unset relay address, and the request is answered with success where the model answers 508 (`Alloc.UnreservedClaimedAsWritten`).
- Tcp.Survivors, Tcp.SurvivorsAppend, Tcp.TcpServer.Accept: model the corrected reaper, which closes every idle connection older than 60 seconds; the loop as written ends after the first connection it closes (`Tcp.SurvivorsAsWritten`, `Tcp.ReaperStopsAsWritten`).
- BindingResponder.Alternate, BindingResponder.ReplySocket, BindingResponder.OtherAddress, BindingResponder.Respond: compare IP addresses with `SA_ADDR` over UDP too, the corrected behaviour; the UDP selector as written compares with `SA_PORT` (`Udp.SocketAsWrittenKeepsIp`, `BindingResponder.OtherAddressAsWritten`).
- Db.Database.SyncCredentials: requires a count of at most 2^31, because the sizing loop shifts a 32-bit value past bit 31 above that, which is undefined behaviour in C (on common hardware the shift count wraps and the loop never ends).
- `chan_cur` is modelled as a 64-bit unsigned counter (`Chan.ChanCount`), as its `%llu` printing suggests; the declaration of `struct turnd` is not part of this model.
- Turn.Size: states the value only below 2^64; a wrap of `size_t` cannot happen for data of the sizes modelled.
- Alloc.Remaining: states only the case where the timer is due; the other case is the whole seconds left, and `Alloc.ReplayLifetime` states what is used.
- The random key the authentication module fills in when the user is unknown is a parameter (`scratch`) of `Auth.Handle`; random numbers are not modelled.

## Findings

| source | as written | input that shows it | evidently intended | confidence | as-written member | corrected member |
|---|---|---|---|---|---|---|
| src/udp.c:116-117 | the change-IP filter of `restund_udp_socket` compares addresses with `SA_PORT`, so it skips listeners on the same port and accepts one on the same IP | listeners 1.2.3.4:3478 and 1.2.3.4:3479, a change-IP request received on 1.2.3.4:3478: the answer leaves from 1.2.3.4:3479 | compare with `SA_ADDR`, so a change-IP answer always leaves from another IP | not executed | Udp.SocketAsWrittenKeepsIp | Udp.ChangeIpGivesOtherIp |
| src/tcp.c:123-133 | after a padded ChannelData frame, the reassembly moves past the padding even when the padding has not arrived; the next segment starts with the owed padding, which is read as a header | segment `40 00 00 01 AA`, then segment `00 00 00 40 00 00 00`: the second frame is lost and the padding is read as the header of an 84-byte STUN message | skip the padding still owed before reading the next header | not executed | Tcp.PaddingSplitLosesFrame | Tcp.SecondSegmentCorrected |
| src/tcp.c:167-174 | the reaper calls `mem_deref` on a connection inside the walk over `tcl`; the destructor unlinks the element whose `next` the loop then reads, which libre's `list_unlink` has cleared and which is freed, so the walk ends after the first connection it closes (reading freed memory) | two idle connections accepted more than 60 seconds before a new connect: only the first is closed | fetch the next element before closing the current one, so every idle connection older than 60 seconds is closed | not executed; rests on libre's `list_unlink`, which is not part of this model | Tcp.ReaperStopsAsWritten | Tcp.Survivors |
| modules/turn/perm.c:192-203 | CreatePermission looks only in the permission table for each peer, so a second peer with the same IP creates a second permission | XOR-PEER-ADDRESS 192.0.2.1:1000 and 192.0.2.1:2000 in one request: two permissions for 192.0.2.1 are committed | look in the staged list too, keeping one permission per IP address | not executed | Perm.DuplicatePeerAsWritten | Perm.CommitKeepsUnique |
| modules/turn/turn.c:228 | over UDP, `raw_handler` sends everything after the ChannelData header to the peer, padding included, and counts it (over TCP the reassembly already ends the frame at the announced length) | the UDP ChannelData datagram `40 00 00 01 AB 00 00 00` sends four bytes to the peer instead of one | send and count only the `len` bytes the header announces | not executed | Turn.PaddingRelayedAsWritten | Turn.RawPayloadRoundTrip |
| modules/binding/binding.c:59-62 | OTHER-ADDRESS comes from `restund_udp_socket` over UDP, whose change-IP filter compares with `SA_PORT`, so it may name a listener on the same IP | UDP listeners 1.2.3.4:3478 and 1.2.3.4:3479, a Binding request received on 1.2.3.4:3478: OTHER-ADDRESS is 1.2.3.4:3479 | name only a listener on another IP and port, or leave OTHER-ADDRESS out | not executed | BindingResponder.OtherAddressSameIpAsWritten | BindingResponder.OtherAddress |
| modules/turn/alloc.c:192-204 | `rsvt_handler` accepts any allocation of the bucket whose reserved family and port match the token, including one that holds no reservation | a RESERVATION-TOKEN with family 0 and port 0 is claimed by an allocation without a reservation, the one being created included, which then gets no relay socket | also require the allocation to hold an open reserved socket | not executed | Alloc.UnreservedClaimedAsWritten | Alloc.ReservationRedeemable |
