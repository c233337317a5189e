# CoreVPN, modelled and proved in Dafny

CoreVPN speaks the OpenVPN wire protocol: TLS bytes travel over UDP in a reliable control channel, IP
packets in an AEAD-protected data channel, and a server hands out addresses and admits clients after an
OAuth login. This project models that core and proves what it guarantees, for all inputs and over whole
runs. Where the code does not have a property one would expect, the model keeps the code, shows a concrete
case and proves exactly when the property holds.

- **Control channel.** `Packet`, `Opcode`, `TlsAuth`, `Reliable`, `Chunking`, `Reassembler` and `Session`
  follow the code; `ReceiveRuns` and `SendRuns` prove the invariants of the two halves of the reliable
  transport; `ControlChannel` puts two sessions and a network that loses, duplicates, delays and reorders
  together and proves the stream theorem; `Handshake` and `TlsAuthRuns` prove what the two ends learn about each
  other, session ids and acknowledgements, and what tls-auth lets through.
- **Data channel and keys.** `ReplayWindow`, `Cipher`, `Kdf`, `KeyMethod` and `DataChannel` follow the code;
  `CipherRuns`, `DataPath` and `KeyAgreement` prove what two ends achieve together.
- **Server.** `AddressPool`, `ServerSteps` and `Server` follow the code; `ServerRuns`, `LoginTokens` and
  `Sweeps` prove invariants of every run of its event loop and of the cleanup task beside it; `ServerProgress`
  says exactly when a client is answered, admitted and served; `ServedData` joins these runs with the data path
  of one client.
- **Text formats and tables.** `PushReply` with `PushReplyRoundTrip`, `StaticKey`, `RateLimiter` and
  `AuthSessions`, over the string functions of `Text`.

Objects that the code updates in place are classes whose methods are proved to compute step functions on
values (`SessionSteps`, `ServerSteps`, the step functions beside each class); the theorems are about those
functions. HMAC and AEAD are function parameters. The AEAD is assumed correct, and ideal where a theorem says
so: no packet of the run opens unless it was sealed. The clock, random numbers, the TLS engine and the
network appear as parameters of steps.

Behaviour of the code worth knowing, each proved below:

- The receiver acknowledges and then drops packets that overtook another one (`OvertakenPacketIsLost`), and
  it acknowledges payloads that the reassembler then refuses (`RefusedPayloadIsLost`), so that a record longer
  than 65536 bytes never arrives (`LargestRecordIsRefused`). `StreamTheorem` says exactly when nothing is lost.
- The number of acks is sent modulo 256. Above 16 by that count the peer rejects the packet; from 256 acks on it
  misreads those whose count is at most 16 (`AcksMisread`), and up to 16 acks it misreads some packets sent
  before the peer's session id is known. `RejectedOrReadIff` is the exact condition.
- A data packet's id is spent before its tag is checked (`AttemptSpendsId`).
- The server never releases addresses (`AdmissionsAreBounded`), and an OAuth token is bound to a client
  address rather than to one connection (`EarlierTokenEstablishes`, with the exact condition).
- The cleanup of idle connections collects and removes under separate locks, so a client that reconnects in
  between loses its new connection (`ReconnectIsRemoved`, with the exact condition).
- The client takes the server's key method off the plaintext as soon as its options string is complete
  (`SplitsTooEarlyIff`).
- The server and the client read key files differently when a line has an odd number of digits
  (`ClientKeyIsServerKeyIff`, `WrappedKeyIsRejected`).
- The number of available addresses is reported two too low (`AvailableIsConservative`).
- A session lookup by OAuth state is counted twice against the rate limit although the code's comment speaks
  of 100 lookups a minute (`GetSessionByState`).

`dafny verify dfyconfig.toml` checks the project.

## Model

| member | source | states |
|---|---|---|
| ControlChannel.StreamTheorem | crates/corevpn-protocol/src/session.rs:210-333 | In every run of two fresh ends over a network that loses, duplicates, delays, reorders and replays what was sent, with retransmission, and for every sender stream: the records the receiver extracted and its leftover buffer are the record cut of the payloads below its next expected id, a prefix of the sender's stream, if and only if no non-empty arrival among them took the buffering branch of the transport and each of them fits in the 65536-byte buffer beside the incomplete record before it. What is delivered was sent by the peer in a packet that cannot be misread, or is rejected by the receiver; without tls-auth this excludes, by assumption, corrupted packets that still parse. |
| ControlChannel.StreamInOrderIff | crates/corevpn-protocol/src/reliable.rs:292-317 | Without overtaking, that is so if and only if each payload fits in the buffer beside the incomplete record before it. |
| ControlChannel.LegalStreamArrives | crates/corevpn-protocol/src/session.rs:308-322 | Without overtaking, and for records whose bodies have at most 64432 bytes (TLS allows 2^14 + 256 and 2^14 + 2048), that is always so. |
| ControlChannel.LargestRecordIsRefused | crates/corevpn-protocol/src/session.rs:419-437 | A record that announces 65535 bytes, cut into 59 payloads of 1100 bytes and one of 640, is refused at the last one. |
| ControlChannel.RefusedPayloadIsLost | crates/corevpn-protocol/src/session.rs:308-322 | A payload the reassembler refuses has already been acknowledged and passed by the transport, so it does not come again. |
| ControlChannel.DeliveredBytesIff | crates/corevpn-protocol/src/reliable.rs:131-160 | In every such run the bytes handed up to the reassembler are the sender's stream up to the next expected id if and only if no non-empty arrival below it took the buffering branch; the receive invariant holds as well. |
| ControlChannel.RunInvariant | crates/corevpn-protocol/src/session.rs:210-333 | In every run of the two ends, everything an end put on the wire, but for packets whose acks can be misread, is rejected by the other or read as the queued message with that id, and everything that got through was so sent. |
| ControlChannel.EmitGenuine | crates/corevpn-protocol/src/session.rs:587-639 | Every packet one session emits that is a pure ack or cannot be misread (Packets.RejectedOrReadIff), with tls-auth or without, the other end rejects or reads as the same message id and payload. |
| ControlChannel.CallExtendsStream | crates/corevpn-protocol/src/session.rs:419-460 | A call that splits data into control packets is, from every tracked state, a run of enabled send actions; it succeeds exactly if the chunks fit the window, and then the sender's stream is extended by exactly the data, otherwise by the chunks that fitted. |
| ControlChannel.CallIsSends | crates/corevpn-protocol/src/session.rs:419-460 | A call leaves the session as the send actions of its chunks do, also when it stops at the first one that does not fit. |
| Handshakes.PeerIdExact | crates/corevpn-protocol/src/session.rs:268-307 | In every run of two fresh ends, an end's remote session id is the other's session id from the first hard reset of the other that got through, and there is none before. |
| Handshakes.RemoteAfter | crates/corevpn-protocol/src/session.rs:268-307 | A packet sets the remote session id exactly if it gets through, is a hard reset and, from a client, its id is not zero; it is set even if the transport then refuses the packet, and nothing else changes it. |
| Handshakes.SendSaysIff | crates/corevpn-protocol/src/session.rs:440-460 | What the peer reads from a control packet or hard reset response, with tls-auth or without: its opcode, key id (0 for the response), the sender's session id, all acks queued, the next message id and the payload, if and only if no ack is queued, or at most 16 are and the peer's id is known. The queue is empty afterwards. |
| Handshakes.AckSaysIff | crates/corevpn-protocol/src/session.rs:468-492 | The same for a pure ack: it carries every queued ack and no message. |
| Handshakes.ResetSays | crates/corevpn-protocol/src/session.rs:355-375 | A client's hard reset is read as such, with its session id, the next message id and key id 0, and leaves queued acks queued. |
| Handshakes.ResendsSay | crates/corevpn-protocol/src/session.rs:536-560 | Each resend is read as a control packet with its own id and bytes, in the order of the list, without acks. |
| Handshakes.AckFreesId | crates/corevpn-protocol/src/session.rs:259-266 | In every run: if an end emits a packet while it owes an ack for an id, with at most 16 acks queued and the peer known, and that packet gets through to the peer at any later time, the peer does not keep the id for retransmission from then on. |
| Handshakes.ForgottenHasArrived | crates/corevpn-protocol/src/reliable.rs:163-175 | In every run: whatever an end sent and no longer keeps for retransmission arrived at the other end, with the bytes sent under its id. No ack is for anything that did not arrive. |
| Handshakes.StateExact | crates/corevpn-protocol/src/session.rs:268-332 | In every run of two fresh ends, whatever is delivered: an end's protocol state is the one the last accepted hard reset or soft reset leads to, and the initial one before. |
| Handshakes.UnexpectedRejected | crates/corevpn-protocol/src/session.rs:268-332 | Exactly the opcodes no session expects are rejected as unknown and exactly client hard resets with a zero id as invalid, and neither changes the session. |
| Handshakes.TlsDataIff | crates/corevpn-protocol/src/session.rs:308-322 | TLS records are handed on if and only if the expected control packet arrives, fits the 65536-byte buffer and completes at least one; they are all records complete by then, and the rest stays buffered. |
| TlsAuthRuns.NewPacketsPass | crates/corevpn-protocol/src/session.rs:252-260 | With tls-auth, in every run of fewer than 2^29 - 1 events: a packet an end puts on the wire now passes the other end's replay check if it is delivered next. |
| TlsAuthRuns.CopiesRejected | crates/corevpn-protocol/src/session.rs:252-260 | With tls-auth, in every run: a datagram delivered a second time to the same end, with no key rotation there in between, is rejected as a replay. |
| TlsAuthRuns.AdmittedIff | crates/corevpn-protocol/src/session.rs:252-260 | A control packet gets through exactly if it decodes and, with tls-auth, a 64-wide window over the ids checked since the last rotation admits its id, which is then recorded. |
| TlsAuthRuns.EmitStamps | crates/corevpn-protocol/src/session.rs:605-613 | With tls-auth every emitted packet carries the packet id counter, which then advances by one. |
| TlsAuthRuns.ArrivalsChange | crates/corevpn-protocol/src/session.rs:642-648 | Only a delivery adds to the checked ids, and only a key rotation forgets them. |
| CipherRuns.DecryptsExactlyTheIssued | crates/corevpn-crypto/src/cipher.rs:395-470 | Over every run in which the AEAD is not forged, every plaintext the two-layout decryptor returns is the plaintext the peer encrypted under the packet's id, with its AAD prefix, and each id is returned at most once. |
| CipherRuns.NoncesNeverRepeat | crates/corevpn-crypto/src/cipher.rs:291-346 | No two encryptions of a run use the same nonce under one key (section 3.1 of RFC 5116). |
| CipherRuns.IssuesAreNumbered | crates/corevpn-crypto/src/cipher.rs:312-346 | In every run the k-th packet encrypted carries id k, counting from 1, and is the AEAD sealing of its plaintext under that id's nonce and AAD. |
| CipherRuns.GenuineDecryptsIff | crates/corevpn-crypto/src/cipher.rs:395-470 | A genuine packet decrypts to its plaintext exactly when the replay window admits its id, and is otherwise reported as a replay: trying the other tag layout first never misleads. |
| CipherRuns.AttemptSpendsId | crates/corevpn-crypto/src/cipher.rs:395-470 | The replay window is updated before decryption, so after any attempt with an id, successful or not, a packet with the same id is rejected as a replay. |
| DataPath.DeliversOnlyEncrypted | crates/corevpn-protocol/src/session.rs:335-352 | For two sessions with matched channels, until keys are installed again for that key id, with both ends encrypting, receiving any datagrams, sending and resending control packets, rotating keys and installing others: what one end delivers under the key is what the other encrypted, each encryption at most once, provided the AEAD is not forged. |
| DataPath.DeliversBothWays | crates/corevpn-protocol/src/session.rs:525-533 | In one and the same such run that holds in both directions. |
| DataPath.OtherActsKeepHalves | crates/corevpn-protocol/src/session.rs:335-352 | Of all a session can do, only an encryption under a key id changes the encrypting half of its channel, only a data packet for it the decrypting half, and only a new installation replaces it. |
| DataPath.WithoutKeys | crates/corevpn-protocol/src/session.rs:335-352 | A session encrypts if and only if it has a channel for its current key id and packet ids are left; data packets for key ids without a channel are rejected and change nothing. |
| DataPath.MirroredRun | crates/corevpn-protocol/src/session.rs:335-352 | A run seen from the other direction is a run with the same sessions. |
| DataPath.EncryptedIsDelivered | crates/corevpn-protocol/src/session.rs:525-533 | What one session encrypts, the other recovers from the wire bytes exactly when its replay window admits the next id, in both packet versions. |
| DataPath.InstalledChannelsMatch | crates/corevpn-protocol/src/session.rs:495-522 | Installing the same key material with opposite roles gives channels that encrypt and decrypt with the same key and IV in each direction, with fresh counters. |
| DataPath.InstalledPathsFollow | crates/corevpn-protocol/src/session.rs:495-522 | So both directions start as data paths to which the delivery theorems apply. |
| KeyAgreement.BothSidesAgree | crates/corevpn-cli/src/client.rs:387-417 | If each side's remote session id is the other's local id and each accepted a plaintext that begins with the fixed part of the other's key method, whatever became of the strings after it, client and server derive the same key material, and installing it starts a data path with fresh counters in each direction. |
| KeyAgreement.AgreedKeysCarryData | crates/corevpn-protocol/src/session.rs:495-533 | From there, in either direction and over every run of both sessions until keys are installed again, with an AEAD that is not forged: what one side delivers is what the other encrypted, at most once each, and the next packet encrypted under this key is delivered exactly if the replay window admits its id, as it does when all ids presented before are lower. |
| KeyAgreement.IntroducedEndsAgree | crates/corevpn-protocol/src/session.rs:268-307 | Two fresh ends of a control channel run that each let a hard reset of the other through satisfy the id conditions of the key exchange, so with key methods that crossed and equal key ids both derive the same keys. |
| KeyAgreement.InstalledFromWire | crates/corevpn-crypto/src/kdf.rs:156-178 | The channels both sides install are those of the 256-byte block that the two PRF calls give for the bytes that crossed (pre-master secret, then first randoms; second randoms, then session ids, client before server) under the two OpenVPN labels: the client-to-server direction uses bytes 0-31 and 64-71, the other bytes 128-159 and 192-199. |
| KeyAgreement.Derive | crates/corevpn-server/src/server.rs:998-1042 | The two PRF calls (48-byte master secret, then 256-byte key block with both session ids in the seed) and the cut into keys, as the relation Derives. |
| KeyAgreement.ClientDerive | crates/corevpn-cli/src/client.rs:387-417 | The client derives from its own key method and the server's randoms; it fails exactly when the peer's session id is unknown. |
| KeyAgreement.ServerDerive | crates/corevpn-server/src/server.rs:998-1042 | The server derives from the client's key method and its own randoms, with a zero session id when the client's is unknown. |
| KeyAgreement.DerivesUnique | crates/corevpn-crypto/src/kdf.rs:212-270 | The derivation is a function of its inputs. |
| LoginTokens.DataOnlyAfterIssuedLogin | crates/corevpn-server/src/server.rs:1442-1555 | With OAuth and random tokens that do not repeat, in every run: a packet of client p is handed to the TUN device only if an earlier control packet of p issued it a token, a later login consumed that token, which is never pending again, and p's connection has been established under the e-mail of that login ever since. |
| ServedData.TunPacketsWereEncrypted | crates/corevpn-server/src/server.rs:1442-1555 | In every run of the server, for every client whose keys match those of its connection and as long as neither is replaced, with any datagrams from that client's address and any events of others: what is handed to the TUN device for the client are plaintexts it encrypted under those keys, a different encryption for each packet, provided the AEAD is not forged. |
| ServedData.TunPacketsFollowLogin | crates/corevpn-server/src/server.rs:1442-1555 | With OAuth and tokens that do not repeat, if anything was handed over, there was a login of this client before, whose token was issued to it and is spent. |
| ServedData.NextPacketIsForwarded | crates/corevpn-server/src/server.rs:1500-1555 | In every such run: the next packet the client encrypts, presented while the connection is established and the queue has room, is handed to the TUN device if and only if the 128-wide replay window admits its id, unless it is shorter than 20 bytes or the ping. |
| ServedData.DataOutIsForK | crates/corevpn-protocol/src/session.rs:335-352 | A session with a channel for one key id returns data only from packets for that key id. |
| ServerRuns.DataOnlyAfterLogin | crates/corevpn-server/src/server.rs:1442-1555 | The same without any assumption on the tokens: an earlier login completed with a token pending for p, and the connection has been established since. |
| ServerRuns.EstablishedByLogin | crates/corevpn-server/src/server.rs:1850-1936 | With OAuth, every established connection in every reachable state goes back to such a login, uninterrupted. |
| ServerRuns.ForwardsIff | crates/corevpn-server/src/server.rs:1461-1555 | A packet is handed to the TUN device if and only if it is the plaintext of a data packet on an established connection of its client, is not the 16-byte ping, has at least 20 bytes and the queue has room; the ping, and only it, is answered with a ping. |
| ServerRuns.RepliesAlwaysTaken | crates/corevpn-server/src/server.rs:1896-1905 | With OAuth, an established connection never has a push reply left, so no later login or PUSH_REQUEST can use one. |
| ServerRuns.AddressInvariant | crates/corevpn-server/src/server.rs:1046-1078 | In every reachable state: leased addresses are usable addresses of the subnet, every address held by a connection is leased, no two connections hold the same one, a kept push reply announces its connection's address, and an established connection has keys and an address. |
| ServerRuns.RouteIsUnique | crates/corevpn-server/src/server.rs:1572-1578 | In every reachable state at most one connection matches a destination, so the unordered search for it does not depend on map order; the address is never a reserved one. |
| ServerRuns.ReplyRoutesBack | crates/corevpn-server/src/server.rs:1896-1936 | After a push reply to p announcing an address, that address is p's and routes to p and to nobody else, exactly if p's connection is established. |
| ServerRuns.DestinationIff | crates/corevpn-server/src/server.rs:1558-1571 | The destination is read exactly from bytes 16 to 19 of packets of at least 20 bytes with version 4; other packets have none. |
| ServerRuns.AddressFindsClient | crates/corevpn-server/src/server.rs:1572-1578 | In every reachable state, an IPv4 packet to the address of an established connection is routed to that connection and to no other, in whatever order the connections are searched. |
| ServerRuns.ReplyFindsClient | crates/corevpn-server/src/server.rs:1572-1578 | Once a push reply has announced an address to a client whose connection is established, packets to that address find that client. |
| ServerProgress.ClientIsServed | crates/corevpn-server/src/server.rs:879-1284 | From every reachable state: a client that completes the key exchange while an address is free is established at the least free one, routed to, and sent it; with OAuth it is sent the login notice, and all this follows when its login completes, under the e-mail address of the login. |
| ServerProgress.ControlExact | crates/corevpn-server/src/server.rs:732-1440 | All a control packet does to its connection, the leases and the pending logins: activity time, protocol state, user name, keys, address, kept reply, token; and that it touches nothing else. |
| ServerProgress.ControlOutputs | crates/corevpn-server/src/server.rs:1078-1400 | What a control packet is answered with: the login notice or the push reply of an admission if it was written, and the kept push reply on a PUSH_REQUEST to a connection established by then, unless the handler failed before. |
| ServerProgress.ResetExact | crates/corevpn-server/src/server.rs:651-730 | A hard reset is answered from the cache exactly if the client was heard of in the last 30 seconds, without any change; otherwise it is given a new connection exactly if the session accepts it, TLS starts and a response is made. |
| ServerProgress.RetryGetsSameResponse | crates/corevpn-server/src/server.rs:656-681 | In every run: a hard reset repeated within 30 seconds of the client's last activity gets byte for byte the response with which its connection was created. |
| ServerProgress.LoginExact | crates/corevpn-server/src/server.rs:1850-1936 | A completed login spends its token, and takes effect exactly if the token's client has a connection with a kept push reply: the reply is spent, the user named, and the connection established exactly if the reply was sent over TLS. |
| ServerProgress.DataExact | crates/corevpn-server/src/server.rs:1442-1470 | A data packet changes nothing but the activity time and, on an established connection, the protocol state by the session's result. |
| ServerProgress.CleanupExact | crates/corevpn-server/src/server.rs:558-595 | Exactly the connections silent for longer than a positive timeout are collected, while no collection is outstanding, and exactly what was collected is removed. |
| ServerRuns.AdmissionsAreBounded | crates/corevpn-server/src/server.rs:558-598 | The server never releases an address: in every run the leased addresses are exactly as many as the admissions so far, whoever has left since, and at most 2^(32-prefix) - 3. |
| Sweeps.LiveConnectionRemovedIff | crates/corevpn-server/src/server.rs:558-595 | The cleanup collects under one lock and removes under another, so in every run: it removes exactly the collected addresses' connections, and it removes one that is not idle if and only if a packet of that client counted as activity between the two and within the timeout. |
| Sweeps.ReconnectIsRemoved | crates/corevpn-server/src/server.rs:558-595 | A client that reconnects between collection and removal loses its new connection. |
| Sweeps.DoomedWereStale | crates/corevpn-server/src/server.rs:558-577 | In every run, the addresses about to be removed are those of the connections that were stale at the last collection. |
| Sweeps.WasActive | crates/corevpn-server/src/server.rs:744-752 | In every run, a connection's last activity is the time of a packet of its client, and has not changed since. |
| ServerRuns.LeasesGrow | crates/corevpn-server/src/server.rs:1046-1078 | The set of leased addresses only grows along a run. |
| ServerRuns.AddressIsNew | crates/corevpn-server/src/server.rs:1046-1078 | An address given to a client was held by no connection at any earlier time of the run. |
| LoginTokens.TokenSpentOnce | crates/corevpn-server/src/server.rs:1856-1882 | If the random tokens do not repeat, a token consumed by a completed login is never pending again. |
| LoginTokens.PendingWasIssued | crates/corevpn-server/src/server.rs:1146-1169 | Every pending token was registered, for the client it is pending for and with the time recorded with it, by a control packet of that client. |
| LoginTokens.ConnectionWasCreated | crates/corevpn-server/src/server.rs:651-730 | Every connection was created by a hard reset of its client at its recorded time and has been the same one since. |
| LoginTokens.EarlierTokenEstablishes | crates/corevpn-server/src/server.rs:1856-1936 | Tokens are bound to addresses, not to connections: a concrete reconnecting client whose first token, completed late, establishes its second connection. |
| LoginTokens.LoginReachesItsConnectionIff | crates/corevpn-server/src/server.rs:1856-1936 | A pending token was issued to the very connection its client has now if and only if its creation time is later than that connection's. |
| ServerSteps.OutcomeDecidesState | crates/corevpn-protocol/src/session.rs:210-352 | The protocol state after a packet is a function of the state before it and the result returned, which is what lets a server connection be modelled by its state and the results. |
| Servers.VpnServer.HandleHardReset | crates/corevpn-server/src/server.rs:651-730 | Refines the step function: A live connection younger than 30 idle seconds answers from its cached response; otherwise a successful hard reset installs a new connection in place of any old one; failures change nothing. |
| Servers.VpnServer.HandleControlPacket | crates/corevpn-server/src/server.rs:732-1440 | Refines the step function: Touch, protocol state, key exchange while the handshake or key exchange is in progress, and PUSH_REQUEST on an established connection, with every early error return. |
| Servers.VpnServer.ReadKeyMethod | crates/corevpn-server/src/server.rs:832-878 | Refines the step function: The state becomes KeyExchange; unreadable or unparsable plaintext leaves it there; a parsed key method admits the client. |
| Servers.VpnServer.AdmitClient | crates/corevpn-server/src/server.rs:879-1055 | Refines the step function: User name, keys and one leased address; an exhausted pool leaves the keys installed and nothing else. |
| Servers.VpnServer.AssignAddress | crates/corevpn-server/src/server.rs:1078-1284 | Refines the step function: With OAuth the push reply is kept, a token registered and the state stays KeyExchange; without it the connection is established once the reply is flushed. |
| Servers.VpnServer.HandleDataPacket | crates/corevpn-server/src/server.rs:1442-1555 | Refines the step function: Data is dropped before the connection is established; pings are answered, packets of at least 20 bytes forwarded, shorter ones dropped. |
| Servers.VpnServer.FindRoute | crates/corevpn-server/src/server.rs:1558-1578 | Some established connection with the destination of the packet as its address, if there is one; ServerRuns.AddressFindsClient says which. |
| Servers.VpnServer.HandleAuthCompleted | crates/corevpn-server/src/server.rs:1850-1952 | Refines the step function: The token is removed; the connection is established only if it still exists, has a kept reply, has TLS and the reply could be written and flushed. |
| Servers.VpnServer.CollectStaleConnections | crates/corevpn-server/src/server.rs:558-577 | Refines the step function: The addresses of exactly the connections idle for longer than the timeout are collected, unless the timeout is zero. |
| Servers.VpnServer.RemoveCollectedConnections | crates/corevpn-server/src/server.rs:591-595 | Refines the step function: Whatever connections the collected addresses have by then are removed; pending tokens and leases stay. |
| AddressPools.AllocateExact | crates/corevpn-core/src/network.rs:324-340 | Allocation returns the least free usable address and leases it, and fails exactly when all 2^(32-prefix) - 3 are leased. |
| AddressPools.AllocateSpecificExact | crates/corevpn-core/src/network.rs:362-382 | A given address is leased exactly if it is usable and free; it is reported as outside the pool exactly if it is outside the subnet, and as reserved or leased exactly if it is one of the three reserved addresses or leased. |
| AddressPools.PoolInvariant | crates/corevpn-core/src/network.rs:324-412 | Over every sequence of allocations, specific allocations and releases, leased addresses stay in the subnet and unreserved. |
| AddressPools.AvailableIsConservative | crates/corevpn-core/src/network.rs:415-424 | The reported count is two less than what can still be allocated (or zero), so a positive count means the next allocation succeeds. |
| AddressPools.ReleaseThenAllocate | crates/corevpn-core/src/network.rs:324-412 | After a release the next allocation succeeds and gives the released address, unless a smaller one was free already. |
| AddressPools.NetBounds | crates/corevpn-core/src/network.rs:209-246 | A subnet with prefix at most 30 lies inside the 32-bit space and has at least four addresses. |
| AddressPools.ValidNetIff | crates/corevpn-core/src/network.rs:209-246 | A subnet is accepted if and only if its prefix is 8 to 30 and its network address is not 0.0.0.0 and not in 127.0.0.0/8, 224.0.0.0/4 or 169.254.0.0/16. |
| AddressPools.AddressPool.Allocate | crates/corevpn-core/src/network.rs:324-340 | The search loop computes the least free address. |
| AddressPools.AddressPool.AllocateSpecific | crates/corevpn-core/src/network.rs:362-382 | Refines the specific allocation step. |
| AddressPools.AddressPool.Release | crates/corevpn-core/src/network.rs:405-412 | Removes exactly the address. |
| AddressPools.AddressPool.constructor | crates/corevpn-core/src/network.rs:179-206 | A pool on a validated subnet starts with no leases and the network, gateway and broadcast addresses reserved. |
| ReplayProtection.ReplayWindow.CheckAndUpdate | crates/corevpn-crypto/src/cipher.rs:508-547 | For any window width (128 for data, 64 for tls-auth): the bitmap code admits an id exactly when the set-based specification does: not zero, not behind the window, not accepted before. |
| ReplayProtection.ReplayWindow.BitmapIsAcceptedSet | crates/corevpn-protocol/src/session.rs:62-100 | Bit i of the bitmap is set exactly when the id highest - i was accepted since the last reset. |
| ReplayProtection.ReplayWindow.Reset | crates/corevpn-protocol/src/session.rs:103-107 | A reset forgets every arrival. |
| ReplayProtection.AcceptedAtMostOnce | crates/corevpn-crypto/src/cipher.rs:508-547 | Whatever arrives in whatever order, no id is accepted twice between resets. |
| ReplayProtection.AcceptedInsideWindow | crates/corevpn-crypto/src/cipher.rs:508-547 | A non-zero id no later arrival has pushed out of the window was accepted exactly if it arrived: every fresh id inside the window is let through. |
| OpCodes.OpCodeByteIff | crates/corevpn-protocol/src/opcode.rs:41-60 | A byte decodes to an opcode and key id exactly if it is their encoding. |
| OpCodes.OpCodeTable | crates/corevpn-protocol/src/opcode.rs:9-60 | The byte of every opcode and key id in the OpenVPN protocol, and that exactly the bytes below 24 or from 96 on are rejected. |
| Packets.ParseIff | crates/corevpn-protocol/src/packet.rs:204-364 | The parser accepts exactly the serializations of well-formed packets and inverts them, with and without tls-auth. |
| Packets.SerializeAfterParse | crates/corevpn-protocol/src/packet.rs:204-364 | Serializing what was parsed gives back every byte string the parser accepts. |
| Packets.ParseAfterSerialize | crates/corevpn-protocol/src/packet.rs:204-364 | Parsing what was serialized gives back every well-formed packet. |
| Packets.ControlLayout | crates/corevpn-protocol/src/packet.rs:144-165 | Where the header fields of a serialized control packet are: byte 0, session id at 1, and with tls-auth HMAC at 9, packet id at 41, timestamp at 45. |
| Packets.BodyLayout | crates/corevpn-protocol/src/packet.rs:317-364 | Where the rest is: number of acks, the acks in big-endian order, the remote session id if there are acks, the message id, the payload. |
| Packets.EmittedSurvivesIff | crates/corevpn-protocol/src/packet.rs:249-295 | A packet as the session builds it is recovered exactly if it carries at most 16 acks and, if any, the remote session id is known. |
| Packets.TooManyAcksRejected | crates/corevpn-protocol/src/packet.rs:249-258 | If the number of acks modulo 256 is above 16, the peer rejects the packet with that count. |
| Packets.RejectedOrReadIff | crates/corevpn-protocol/src/packet.rs:249-295 | Every control packet a session emits is rejected by the peer or read as it is if and only if its number of acks modulo 256 is above 16, or it has at most 16 and either none, or a known remote session id, or fewer than 8 bytes after the acks. |
| Packets.AcksMisread | crates/corevpn-protocol/src/packet.rs:317-364 | From 256 acks on, when the count byte is at most 16, the peer accepts another packet: that many acks, the next two acks as remote session id unless the count is zero, the next as message id unless it is a pure ack, and the rest as payload. |
| Packets.Serialize | crates/corevpn-protocol/src/packet.rs:317-364 | The serializer, with its loop over the acks, computes PacketBytes. |
| Packets.Parse | crates/corevpn-protocol/src/packet.rs:204-312 | The parser with its running offset computes ParsePacket. |
| Packets.ParseAcks | crates/corevpn-protocol/src/packet.rs:261-276 | The ack loop reads the given number of acks or fails where the data ends. |
| Packets.PutAcks | crates/corevpn-protocol/src/packet.rs:326-329 | The ack loop appends the acks in order. |
| TlsAuth.DirectionsAgreeIff | crates/corevpn-crypto/src/hmac_auth.rs:60-111 | Two ends of one static key understand each other both ways exactly if their directions are complementary or the two HMAC halves of the key coincide. |
| TlsAuth.DirectionKeys | crates/corevpn-crypto/src/hmac_auth.rs:60-111 | Which 32 bytes of the four 64-byte parts of a static key an end sends and receives with, for every role and direction, and that other directions are rejected. |
| TlsAuth.WrappedVerifies | crates/corevpn-protocol/src/session.rs:587-639 | The receiver's rearranged HMAC input is the sender's, so with matching keys every wrapped control packet of at least 9 bytes verifies and unwraps to itself. |
| TlsAuth.VerifiedIffWrapped | crates/corevpn-protocol/src/session.rs:214-244 | A control packet verifies exactly if it is the wrapping, under the receive key, of some packet, id and timestamp. |
| TlsAuth.ShortRejected | crates/corevpn-protocol/src/session.rs:214-244 | With tls-auth, a control packet of fewer than 49 bytes is rejected as too short. |
| TlsAuth.ParseWrapped | crates/corevpn-protocol/src/packet.rs:44-139 | Parsing the wire form with tls-auth is parsing the bare packet without it plus the hmac, packet id and timestamp; errors are the same errors forty bytes later. |
| TlsAuth.EmittedIsReceived | crates/corevpn-protocol/src/session.rs:214-244 | A packet emitted with at most 16 acks, wrapped by one end and received by the other end of the same key with complementary directions, arrives as that packet. |
| Reliable.ReliableTransport.Send | crates/corevpn-protocol/src/reliable.rs:98-122 | Refines the send step: the next id, or an error when the window is full, and nothing else changes. |
| Reliable.ReliableTransport.Receive | crates/corevpn-protocol/src/reliable.rs:131-160 | Refines the receive step: an ack is queued before anything else, the next expected packet is delivered and the buffer drained past it without delivery, later ones are buffered up to 100. |
| Reliable.ReliableTransport.ProcessAcks | crates/corevpn-protocol/src/reliable.rs:163-175 | Refines the ack step: acknowledged ids leave the window and the first copy's round trip updates the RTT estimate. |
| Reliable.ReliableTransport.GetAcks | crates/corevpn-protocol/src/reliable.rs:178-180 | Hands over all queued acks and empties the queue. |
| Reliable.ReliableTransport.GetRetransmits | crates/corevpn-protocol/src/reliable.rs:200-224 | Returns exactly the due packets with their own bytes, by ascending id, and backs their timers off. |
| Reliable.CollectRetransmits | crates/corevpn-protocol/src/reliable.rs:200-224 | The loop over the pending map in id order. |
| Reliable.ReliableTransport.constructor | crates/corevpn-protocol/src/reliable.rs:81-95 | A new transport has nothing pending, buffered or queued and expects id 0. |
| ReceiveRuns.ReceiveInvariant | crates/corevpn-protocol/src/reliable.rs:125-160 | For every arrival order below 2^32 ids: delivered ids strictly increase; delivered and drained ids partition the ids below the next expected one; every buffered id is above it; at most 100 are buffered. |
| ReceiveRuns.EveryArrivalIsAcked | crates/corevpn-protocol/src/reliable.rs:131-160 | Every arrival is acknowledged once and in order, including packets the full buffer turned away. |
| ReceiveRuns.RefusedIff | crates/corevpn-protocol/src/reliable.rs:125-160 | An arrival is refused exactly if it is ahead of the expected one while 100 are buffered; it is acknowledged all the same. |
| ReceiveRuns.DrainExact | crates/corevpn-protocol/src/reliable.rs:140-143 | The drain loop removes exactly the run of consecutive ids that starts at the next expected one. |
| ReceiveRuns.DeliveredPrefixIff | crates/corevpn-protocol/src/reliable.rs:131-160 | For every arrival order: the delivered bytes are the sent stream up to the next expected id if and only if every arrival below it that came ahead of the expected id while fewer than 100 were buffered was empty. |
| ReceiveRuns.BufferedOrDrained | crates/corevpn-protocol/src/reliable.rs:140-154 | In every run the ids that ever took the buffering branch are exactly those still buffered and those the drain loop dropped. |
| ReceiveRuns.NothingDrained | crates/corevpn-protocol/src/reliable.rs:131-160 | If no packet arrives ahead of the next expected one, nothing is buffered or drained. |
| ReceiveRuns.NothingBuffered | crates/corevpn-protocol/src/reliable.rs:146-154 | And then no arrival takes the buffering branch. |
| ReceiveRuns.OvertakenPacketIsLost | crates/corevpn-protocol/src/reliable.rs:140-143 | Three arrivals in the order 0, 2, 1: packet 2 is acknowledged and never delivered. |
| SendRuns.SendInvariant | crates/corevpn-protocol/src/reliable.rs:98-224 | In every run: the window is never exceeded, no id is reused, every id is acknowledged or pending with its original bytes and never both, and none is put on the wire more than 1 + max_retransmits times. |
| SendRuns.AckedStaysAcked | crates/corevpn-protocol/src/reliable.rs:163-224 | Along every run: once acknowledged, an id stays acknowledged and is never put on the wire again. |
| SendRuns.RetransmitsAreSpaced | crates/corevpn-protocol/src/reliable.rs:200-271 | In every run a packet is resent only when at least the initial timeout has passed since its last copy, and timeouts never exceed the maximum. |
| SendRuns.TimingRun | crates/corevpn-protocol/src/reliable.rs:240-271 | In every run each pending packet is due at the time of its last copy plus a timeout that stays between the initial and the maximum one. |
| SendRuns.ResentIff | crates/corevpn-protocol/src/reliable.rs:200-224 | In every run: a pending packet is resent exactly if its timeout has passed since its last copy and it has been sent at most as often as retransmissions are allowed. |
| SendRuns.TimeoutClosed | crates/corevpn-protocol/src/reliable.rs:216-220 | The timeout after n retransmissions is the first one multiplied n times by the backoff factor, up to the maximum. |
| SendRuns.BackoffRun | crates/corevpn-protocol/src/reliable.rs:200-224 | In every run every pending packet has the timeout that its number of retransmissions gives, from a first one within the bounds. |
| SendRuns.SampleIffSentOnce | crates/corevpn-protocol/src/reliable.rs:163-175 | In every run: an acknowledgement is a round-trip sample, the time since its only copy, exactly if the packet was sent once (Karn's rule). |
| SendRuns.DefaultLimits | crates/corevpn-protocol/src/reliable.rs:30-45 | With the default configuration, in every run: at most 8 pending packets, a send succeeds exactly below that, at most 11 copies, timeouts from 2 to 60 seconds that double. |
| Reliable.RttSmoothing | crates/corevpn-protocol/src/reliable.rs:251-272 | A sample moves the round-trip estimate by an eighth and the deviation by a quarter of its distance; the first one is taken as it is (section 2 of RFC 6298). |
| Reliable.TimeoutClamped | crates/corevpn-protocol/src/reliable.rs:240-249 | The timeout is the estimate plus four deviations, brought within the configured bounds. |
| Chunking.ChunksCover | crates/corevpn-protocol/src/session.rs:419-437 | The chunks concatenate to the data, each has at most 1100 bytes, only the last may be shorter, and none is empty unless the data is. |
| Chunking.SendAllExact | crates/corevpn-protocol/src/session.rs:419-460 | Queuing chunks gives them consecutive ids and their own bytes, as many as the window has room for, and fails exactly if they do not all fit. |
| Reassembly.CutSound | crates/corevpn-protocol/src/reliable.rs:301-317 | The cut of a byte string is whole TLS records followed by an incomplete rest, and concatenates to it. |
| Reassembly.RecordIff | crates/corevpn-protocol/src/reliable.rs:301-317 | A record is five bytes of header, the last two of which give the length of the rest, high byte first. |
| Reassembly.CutUnique | crates/corevpn-protocol/src/reliable.rs:301-317 | There is no other way to read the byte string so (section 5.1 of RFC 8446). |
| Reassembly.CutAppend | crates/corevpn-protocol/src/reliable.rs:292-317 | Cutting a part and later the leftover with more bytes is cutting everything at once. |
| Reassembly.TlsRecordReassembler.Add | crates/corevpn-protocol/src/reliable.rs:292-298 | Appends, or refuses when the buffer would pass its maximum and then changes nothing. |
| Reassembly.TlsRecordReassembler.ExtractRecords | crates/corevpn-protocol/src/reliable.rs:301-317 | The extraction loop computes the cut and leaves the incomplete rest. |
| Reassembly.FeedIsCut | crates/corevpn-protocol/src/reliable.rs:292-317 | However a stream is split into adds that all succeed, records and leftover are the cut of the whole stream. |
| Reassembly.FeedFitsIff | crates/corevpn-protocol/src/reliable.rs:292-298 | No chunk of a stream is refused if and only if each fits in the buffer beside the incomplete record that the chunks before it leave. |
| Reassembly.SplitsAgree | crates/corevpn-protocol/src/reliable.rs:292-317 | Two splits of one stream whose adds all succeed give the same records and leftover. |
| Reassembly.NeverTooLarge | crates/corevpn-protocol/src/reliable.rs:292-298 | For legal records in bounded chunks no add is refused if one incomplete record and one chunk fit. |
| Reassembly.ControlChannelNeverTooLarge | crates/corevpn-protocol/src/session.rs:152 | With the 65536-byte buffer and 1100-byte chunks, no add is refused and the result is the cut for all records with bodies of at most 64432 bytes. |
| Reassembly.FeedAllIsCutIff | crates/corevpn-protocol/src/session.rs:308-322 | Feeding chunks and dropping the refused ones gives the cut of the stream if and only if none is refused. |
| Reassembly.RecordFitsIff | crates/corevpn-protocol/src/reliable.rs:292-317 | However it is split, one record gets through if and only if it is no longer than the buffer. |
| Sessions.ProtocolSession.constructor | crates/corevpn-protocol/src/session.rs:145-163 | A new session is in the initial state with no keys and stamp 1. |
| Sessions.ProtocolSession.Process | crates/corevpn-protocol/src/session.rs:210-249 | Refines ProcessPacket: tls-auth check, parse, and the control or data path, with the first error that applies. |
| Sessions.ProtocolSession.ProcessControlPacket | crates/corevpn-protocol/src/session.rs:252-333 | Replay check, acks, and the dispatch on the opcode. |
| Sessions.ProtocolSession.ReceiveReset | crates/corevpn-protocol/src/session.rs:269-307 | A hard reset records the remote id, passes its message id through the reliable transport and starts the handshake. |
| Sessions.ProtocolSession.ReceiveTls | crates/corevpn-protocol/src/session.rs:309-322 | A TLS payload delivered in order is reassembled and complete records come out. |
| Sessions.ProtocolSession.ProcessDataPacket | crates/corevpn-protocol/src/session.rs:335-352 | A data packet is opened in place with the channel of its key id, or refused when there is none. |
| Sessions.ProtocolSession.MaybeWrap | crates/corevpn-protocol/src/session.rs:587-639 | Packets of at least 9 bytes are wrapped and stamped with increasing packet ids when tls-auth is on. |
| Sessions.ProtocolSession.DispatchPacket | crates/corevpn-protocol/src/session.rs:268-332 | The cases of the opcode, with the zero session id refused for client resets. |
| Sessions.ProtocolSession.CreateHardResetClient | crates/corevpn-protocol/src/session.rs:355-375 | The client's first packet has key id 0, no acks and no remote id, and takes a message id. |
| Sessions.ProtocolSession.CreateHardResetResponse | crates/corevpn-protocol/src/session.rs:378-402 | The server's answer has key id 0 and carries all pending acks. |
| Sessions.ProtocolSession.CreateControlPacket | crates/corevpn-protocol/src/session.rs:440-460 | Queues a payload and emits it under the current key id with all pending acks. |
| Sessions.ProtocolSession.CreateControlPackets | crates/corevpn-protocol/src/session.rs:419-437 | The chunking loop emits one packet for each chunk and stops at the first error. |
| Sessions.ProtocolSession.CreateAckPacket | crates/corevpn-protocol/src/session.rs:468-492 | A packet of all pending acks, if there are any. |
| Sessions.ProtocolSession.GetRetransmits | crates/corevpn-protocol/src/session.rs:536-560 | Exactly the due packets, rebuilt as P_CONTROL_V1 without acks. |
| Sessions.ProtocolSession.Encrypt | crates/corevpn-protocol/src/session.rs:525-533 | Encrypts with the channel of the current key id. |
| Sessions.ProtocolSession.Install | crates/corevpn-protocol/src/session.rs:495-522 | Installs a channel under the current key id with the keys of the given role. |
| Sessions.ProtocolSession.Rotate | crates/corevpn-protocol/src/session.rs:642-648 | The next key id modulo 8, and a fresh tls-auth replay window. |
| PacketCiphers.NonceInjective | crates/corevpn-crypto/src/cipher.rs:291-298 | Under one IV different packet ids have different nonces. |
| PacketCiphers.TagFirstReadsBack | crates/corevpn-crypto/src/cipher.rs:312-346 | The wire form (id, tag, ciphertext) reads back as the id and the sealed bytes. |
| PacketCiphers.EncryptedLayout | crates/corevpn-crypto/src/cipher.rs:312-346 | An encrypted payload is the next packet id, the 16 bytes of tag and the ciphertext of the AEAD sealing under that id's nonce, with the authenticated header and the id as AAD. |
| PacketCiphers.DecryptsIff | crates/corevpn-crypto/src/cipher.rs:395-470 | A packet decrypts to a plaintext if and only if it has at least 20 bytes, a 128-wide window admits its id, and the reading with the tag at the end opens to it, or that one does not open and the one with the tag first does. |
| PacketCiphers.PacketCipher.Encrypt | crates/corevpn-crypto/src/cipher.rs:312-346 | Refines the encryption step: a checked counter, the nonce, the AAD, and the tag moved to the front. |
| PacketCiphers.PacketCipher.EncryptInto | crates/corevpn-crypto/src/cipher.rs:349-381 | The buffer-appending form appends exactly the packet the simple form returns. |
| PacketCiphers.PacketCipher.Decrypt | crates/corevpn-crypto/src/cipher.rs:395-470 | Refines the decryption step: length and replay checks, then both tag layouts. |
| KeyDerivation.PHash | crates/corevpn-crypto/src/kdf.rs:246-270 | The loop computes the first n bytes of the P_hash stream of section 5 of RFC 2246, for any MAC of fixed non-zero length. |
| KeyDerivation.PHashPrefix | crates/corevpn-crypto/src/kdf.rs:246-270 | The output of a given length is unique and a shorter one is a prefix of a longer one. |
| KeyDerivation.PHashByte | crates/corevpn-crypto/src/kdf.rs:246-270 | Each byte of the stream is the byte of the MAC of the block's A value and the seed at that place. |
| KeyDerivation.PHashFirst | crates/corevpn-crypto/src/kdf.rs:246-270 | The first block is the MAC of the MAC of the seed followed by the seed. |
| KeyDerivation.HalvesCover | crates/corevpn-crypto/src/kdf.rs:212-230 | The two secret halves have length ceil(n/2), cover the secret and share a byte exactly when n is odd. |
| KeyDerivation.OpenVpnPrf | crates/corevpn-crypto/src/kdf.rs:212-240 | The loop computes the XOR of the two P_hash streams over the halves. |
| KeyDerivation.PrfPrefix | crates/corevpn-crypto/src/kdf.rs:212-240 | Two outputs for the same inputs agree on their common length. |
| KeyDerivation.PrfExact | crates/corevpn-crypto/src/kdf.rs:212-240 | For a secret of two equal halves each byte is the XOR of the MD5 stream of the first and the SHA-1 stream of the second half, both over purpose and seed. |
| KeyDerivation.Key2Parts | crates/corevpn-crypto/src/kdf.rs:156-178 | Of the four 64-byte parts of a block the first and third give the client's and the server's key, the second and fourth the tails of their IVs. |
| KeyDerivation.Key2Nonce | crates/corevpn-crypto/src/kdf.rs:156-178 | With key material from a key2 block the nonce is the packet id followed by the eight IV bytes of the block. |
| DataChannels.DataBytesParse | crates/corevpn-protocol/src/data.rs:39-90 | Both parsers of data packets recover every packet, with peer ids cut to 24 bits, with and without tls-auth. |
| DataChannels.DataLayout | crates/corevpn-protocol/src/data.rs:39-90 | Where the fields of a data packet are: opcode and key id, the 24-bit peer id in version 2, the payload. |
| DataChannels.PrefixesMatch | crates/corevpn-protocol/src/data.rs:110-157 | The AAD prefix the receiver rebuilds is the one the sender authenticated, in both packet versions and for every peer id. |
| DataChannels.PrefixIsHeader | crates/corevpn-protocol/src/data.rs:110-157 | What is authenticated is the packet's own four header bytes in version 2, and nothing in version 1. |
| DataChannels.OtherKeyRejected | crates/corevpn-protocol/src/data.rs:173-182 | A packet for another key id is rejected and leaves the channel as it is. |
| DataChannels.DataChannel.Encrypt | crates/corevpn-protocol/src/data.rs:160-170 | Refines the channel encryption step. |
| DataChannels.DataChannel.Decrypt | crates/corevpn-protocol/src/data.rs:173-182 | Refines the channel decryption step. |
| DataChannels.DataChannel.constructor | crates/corevpn-protocol/src/data.rs:110-140 | A channel starts with fresh ciphers and the prefix of its packet version. |
| DataChannels.ChannelTable.Install | crates/corevpn-protocol/src/session.rs:495-522 | A new channel object replaces the one of its key id; the others are untouched. |
| DataChannels.ChannelTable.Decrypt | crates/corevpn-protocol/src/session.rs:335-352 | Updates the channel of the key id in place and no other. |
| DataChannels.ChannelTable.Encrypt | crates/corevpn-protocol/src/session.rs:525-533 | Updates the channel of the key id in place and no other. |
| KeyMethods.ClientRoundTripIff | crates/corevpn-protocol/src/control.rs:437-519 | The client's message is recovered in every field exactly if its strings are clean: below 65535 bytes, no trailing NUL, optional ones not empty. |
| KeyMethods.ServerRoundTripIff | crates/corevpn-protocol/src/control.rs:522-570 | The server's message followed by any bytes yields its randoms and options exactly if the options string is clean. |
| KeyMethods.MessageLayout | crates/corevpn-protocol/src/control.rs:610-656 | The message is four zeros, the number 2, the secrets, and then options, user name, password and peer info. |
| KeyMethods.WrittenString | crates/corevpn-protocol/src/control.rs:597-603 | A string is its length with the terminator, its bytes and the terminator. |
| KeyMethods.StringReadsIff | crates/corevpn-protocol/src/control.rs:573-607 | A written string reads back as itself exactly if it is clean. |
| KeyMethods.CalculateKmSize | crates/corevpn-cli/src/client.rs:799-823 | The loop skips three length-prefixed strings after the fixed part. |
| KeyMethods.KmSizeExact | crates/corevpn-cli/src/client.rs:799-823 | For a complete server message without peer info followed by any bytes, the size found is exactly its length. |
| KeyMethods.SplitsTooEarlyIff | crates/corevpn-cli/src/client.rs:574-583 | On a message cut at any point the client splits it off too early, leaving its rest in front of what follows, if and only if the options string is complete and something after it is missing. |
| KeyMethods.TakenIff | crates/corevpn-cli/src/client.rs:574-583 | The client takes a key method off the plaintext exactly from the moment its options string is complete. |
| KeyMethods.ClientSecretsSurvive | crates/corevpn-protocol/src/control.rs:437-519 | Any accepted text that begins with the fixed part of a client's message yields its pre-master secret and randoms. |
| KeyMethods.ServerRandomsSurvive | crates/corevpn-protocol/src/control.rs:522-570 | Any accepted text that begins with the fixed part of a server's message yields its randoms. |
| PushReplyRoundTrip.RoundTripIff | crates/corevpn-protocol/src/control.rs:97-223 | A push reply survives printing and parsing, with all lists in order, if and only if it is canonical. |
| PushReplyRoundTrip.ParsedIsCanonical | crates/corevpn-protocol/src/control.rs:151-223 | Whatever text it is given, the parser returns a canonical reply. |
| PushReplyRoundTrip.ParsingIsStable | crates/corevpn-protocol/src/control.rs:97-223 | Reading any text, printing what was read and reading it again changes nothing. |
| PushReplyRoundTrip.RoundTrip | crates/corevpn-protocol/src/control.rs:97-223 | Every canonical reply is recovered from its text. |
| PushReplyRoundTrip.RouteRoundTrip | crates/corevpn-protocol/src/control.rs:251-304 | A route with valid addresses and a metric of at most 9999 is recovered from its words. |
| PushReplyRoundTrip.RouteFields | crates/corevpn-protocol/src/control.rs:265-304 | The words of a route are network, netmask, gateway and metric in this order. |
| PushReplyRoundTrip.Defaults | crates/corevpn-protocol/src/control.rs:151-170 | A text without directives gives subnet topology, ping 10, ping-restart 60 and nothing else. |
| PushReplyRoundTrip.TopologyRoundTrip | crates/corevpn-protocol/src/control.rs:319-338 | Each topology is recovered from its name. |
| PushReplies.Encode | crates/corevpn-protocol/src/control.rs:97-148 | The pushes and loops build the directives in order, joined by commas. |
| PushReplies.Parse | crates/corevpn-protocol/src/control.rs:151-223 | The loop over the comma-separated parts folds the directives into the default reply. |
| StaticKeys.BothParsersRoundTrip | crates/corevpn-crypto/src/cert.rs:433-486 | Every 256-byte key is recovered from its file by the server's parser and by the client's. |
| StaticKeys.FileLayout | crates/corevpn-crypto/src/cert.rs:433-450 | The file is a title, the begin marker, sixteen lines of sixteen bytes in order and the end marker. |
| StaticKeys.HexByteDigits | crates/corevpn-crypto/src/cert.rs:433-450 | A byte is written as two lower-case digits, the high one first. |
| StaticKeys.SameKeyIff | crates/corevpn-cli/src/ovpn.rs:185-227 | Given that the client accepts a file, the server reads the same key if and only if the digits it reads, line by line and without odd last ones, are at least 512 and begin with the same 256 bytes. |
| StaticKeys.ClientKeyIsServerKeyIff | crates/corevpn-crypto/src/cert.rs:453-486 | If no marker hides among the lines of digits, that is so if and only if every such line has an even number of digits. |
| StaticKeys.WrappedKeyIsRejected | crates/corevpn-cli/src/ovpn.rs:185-227 | For every key, its 512 digits with a line feed before the last one are read as that key by the client and not by the server. |
| StaticKeys.ServerLinesExact | crates/corevpn-crypto/src/cert.rs:457-476 | The server's parser decodes exactly the beginning of its digits that fits in a key, and fails exactly if that does not decode. |
| StaticKeys.FormatStaticKey | crates/corevpn-crypto/src/cert.rs:433-450 | The nested loops write the marked file with 16 bytes a line. |
| StaticKeys.ParseStaticKey | crates/corevpn-crypto/src/cert.rs:453-486 | The server's parser, writing into a 256-byte array through a running offset. |
| StaticKeys.ParseInlineKey | crates/corevpn-cli/src/ovpn.rs:185-212 | The client's parser, collecting the text of all lines first. |
| StaticKeys.DecodeHex | crates/corevpn-cli/src/ovpn.rs:215-227 | Pairs of digits in order; odd length and invalid digits are errors. |
| RateLimiting.AtMostTwiceTheLimit | crates/corevpn-auth/src/session.rs:42-70 | With a clock that does not go back and without resets, any interval as long as the window has at most twice the limit of allowed checks of one key. |
| RateLimiting.TwiceTheLimitIsReached | crates/corevpn-auth/src/session.rs:42-70 | The bound is attained for every limit of at least one and every window, by two bursts a window apart. |
| RateLimiting.ZeroWindowLimitsNothing | crates/corevpn-auth/src/session.rs:42-70 | With a zero-length window every check is allowed as soon as the limit is at least one. |
| RateLimiting.RateLimiter.Check | crates/corevpn-auth/src/session.rs:42-70 | A check is allowed exactly if the 32-bit count of its window, as determined by the times of the key's checks alone, is within the limit. |
| RateLimiting.RateLimiter.Reset | crates/corevpn-auth/src/session.rs:73-75 | A reset forgets the checks of one key only. |
| RateLimiting.RateLimiter.Cleanup | crates/corevpn-auth/src/session.rs:78-81 | Dropping expired entries changes no later answer: these depend on the times of the checks alone. |
| AuthSessions.LookupExact | crates/corevpn-auth/src/session.rs:244-385 | Over every run in which updates only ever clear OAuth states: a lookup by state finds the session created with it, as it is now, exactly as long as that session is stored, and nothing else. |
| AuthSessions.RemovedIff | crates/corevpn-auth/src/session.rs:244-385 | What each event does to each stored session: creation stores it without an e-mail, a removal takes exactly the named one, that of a user exactly those with the e-mail, the cleanup exactly those past their expiry; the others stay as they are. |
| AuthSessions.RemovalKeepsIndexIff | crates/corevpn-auth/src/session.rs:309-321 | Removing sessions keeps the index of the others if and only if no removed session has taken the state a kept one was created with. |
| AuthSessions.TakenStateHidesASession | crates/corevpn-auth/src/session.rs:298-321 | An update that takes over another session's state, then a removal, hides a stored session from its state. |
| AuthSessions.AuthSessionManager.CreateSession | crates/corevpn-auth/src/session.rs:244-257 | The session and its index entry are added. |
| AuthSessions.AuthSessionManager.UpdateSession | crates/corevpn-auth/src/session.rs:298-306 | An existing session is replaced, and the index is left alone. |
| AuthSessions.AuthSessionManager.RemoveSession | crates/corevpn-auth/src/session.rs:309-321 | The session goes together with the index entry of the state it has now. |
| AuthSessions.AuthSessionManager.RemoveUserSessions | crates/corevpn-auth/src/session.rs:344-362 | Exactly the sessions with the e-mail are removed, with their index entries, and counted. |
| AuthSessions.AuthSessionManager.CleanupExpired | crates/corevpn-auth/src/session.rs:365-385 | Exactly the expired sessions are removed, with their index entries, and counted. |
| AuthSessions.AuthSessionManager.GetSession | crates/corevpn-auth/src/session.rs:260-278 | One check against the limiter, the id format, then the table. |
| AuthSessions.AuthSessionManager.GetSessionByState | crates/corevpn-auth/src/session.rs:281-295 | What the index says or nothing; the limiter gains a check of the client address (of the state, if there is none) and, if that is allowed and the state is indexed, a second check of the address (of the session id); with an address, a session is returned exactly if both are allowed and its id is a UUID. |

## Left out

- ControlChannel.StreamTheorem: requires fewer than 2^32 events, because message ids are compared without wrap-around. Packets that can be misread (Packets.RejectedOrReadIff) may be sent in a run but count as lost. A packet whose creation fails after queuing is modelled as one that was lost.
- ControlChannel.RunInvariant: has the same conditions; datagrams that did not come from the peer are assumed not to pass the checks of the receiving session, which without tls-auth excludes corrupted packets that still parse.
- Handshakes.StateExact: states that the surrounding client or server sets directly are not part of a control channel run; ServerProgress.ControlExact has those of the server.
- TlsAuthRuns.NewPacketsPass: requires fewer than 2^29 - 1 events, because the 32-bit packet id counter of tls-auth is not to wrap.
- KeyAgreement.IntroducedEndsAgree: that the key methods cross unchanged at their beginning is a hypothesis; TLS, which carries them over the control channel, is foreign code.
- ReceiveRuns.ReceiveInvariant: requires ids below 2^32 - 1, because the ordering test of the code is not modular.
- SendRuns.SendInvariant: requires fewer than 2^32 operations, after which ids repeat.
- SendRuns.TimingRun: timeouts and RTT estimates are real numbers; floating-point rounding is not modelled.
- DataPath.EncryptedIsDelivered: the AEAD's encryption is total; the code's error return from the cipher library is not modelled.
- Sessions.ProtocolSession.MaybeWrap: tls-auth packet ids wrap at 2^32, as in a release build.
- RateLimiting.AtMostTwiceTheLimit: requires fewer than 2^32 checks of the key, after which the counter wraps in a release build, and a window longer than zero.
- RateLimiting.RateLimiter.Check: the system clock is assumed not to go back between calls.
- Servers.VpnServer.FindRoute: the encryption of the packet for the connection found is not part of it; see Sessions.ProtocolSession.Encrypt.
- Servers.VpnServer.HandleControlPacket: the protocol session enters through the results it returns and the TLS engine through its answers; packets queued for sending are not part of the server state. Cipher negotiation, logging and byte counters are not modelled.
- Servers.VpnServer.AssignAddress: a reply or login notice counts as output once it is written to the TLS stream; whether a failed flush sent it now or a retransmission sends it later is not modelled.
- Servers.VpnServer.CollectStaleConnections: the cleanup task and the event loop interleave at lock boundaries. A hard reset, which reads the table and later inserts, is one step: only the cleanup can come in between, and it can only remove the connection that the insertion replaces.
- LoginTokens.TokenSpentOnce: assumes that the 128-bit random tokens drawn in a run differ; so does LoginTokens.DataOnlyAfterIssuedLogin.
- LoginTokens.LoginReachesItsConnectionIff: assumes that the clock advances from one event to the next.
- ServedData.TunPacketsWereEncrypted: what the handlers of the client's own packets send afterwards (acks, TLS answers, ping replies, resends) follows as acts of the connection's session in any order; the run ends when the connection is replaced or removed or keys are installed again.
- Sweeps.LiveConnectionRemovedIff: assumes that the clock does not go back.
- KeyMethods.CalculateKmSize: the rest of the client's message loop, which looks for a push reply in the remaining plaintext, is not modelled.
- StaticKeys.ParseStaticKey: texts are ASCII; on other texts the code can stop in the middle of a character.
- PushReplies.Parse: letters are lower-cased in the ASCII range only, which decides the three topology names exactly.
- AuthSessions.AuthSessionManager.GetSession: whether an id is a version 4 UUID is a parameter; tokens, user details and activity times of a session are not modelled.
- IPv6 allocation, and the combined IPv4 and IPv6 allocation that can fail halfway.
- rustls, certificates, real AEAD, HMAC and hash functions: foreign code.
- UDP sockets, the TUN device, routing tables, privileges, async plumbing and the OAuth HTTP handlers: only the state changes they cause are modelled.
- tls-crypt, compression headers, inline blocks of client profiles, the username and password message, delayed-ack and next-timeout queries: easy members.
- The session manager of the core crate, configuration validation, user stores, loggers, the web and desktop interfaces and the NetworkManager plugin.
