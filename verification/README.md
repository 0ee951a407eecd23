# A verified model of the chat server

A Dafny model of the hard core of a C++ chat server and its client: the packet stream, the
handshake and the encrypted channel built on it, the registry of sessions, nicknames and rooms,
the rate limiter, the thread pool, file transfers, the chat history, account lockout, session
tokens and the audit log. `dafny verify dfyconfig.toml` checks the whole project.

Code that updates objects in place is modelled by classes whose methods are proved against
specification functions; the protocols are state machines whose theorems hold for every run.

| file | models |
|---|---|
| `Options`, `Bytes`, `Folds`, `ShiftRegister`, `AscendingSets` | byte encodings and the general theory the rest is built on |
| `Crc32` | the checksum loop |
| `FrameStream`, `Framing` | packets in a byte stream: the session's parser, the client's reader, the serializer |
| `Crypto`, `KeyExchange`, `ClientCrypto` | the handshake at either end |
| `Handshake`, `HandshakeRuns`, `HandshakeProgress`, `KeyInstall` | both ends and many connections: steps, every run, that it completes, runs that show what fails, and the KEY_ACCEPT handler interrupted half-way |
| `SecureChannel` | the channel after the handshake |
| `Registry`, `RoomServer`, `RegistryExamples` | sessions, nicknames, rooms and the tables behind them; the server object; runs that show what fails |
| `RateLimiter` | token buckets |
| `ThreadPool` | workers, submitters and shutdown under one mutex and condition variable |
| `FileRelay`, `FileParties`, `FileNames`, `FileCopy` | the server's relay, whose answer counts and who is behind an fd, the receiver's file names, and a file's way from end to end |
| `ChatHistory` | the buffer and the table of chat entries |
| `Lockout` | failed logins |
| `Base64Url`, `SessionToken` | tokens |
| `AuditChain` | the hash chain |

## Conventions

- Foreign calls are parameters with stated laws: AES-GCM (`Crypto.AeadLaw`), RSA (`Crypto.RsaLaw`), HMAC, JSON and the
  base64 decoder of the library (`SessionToken.Lawful`), the hash of an audit event (any function). SQL tables are maps,
  sets and sequences with the keys and cascades of the schema.
- The clock, random draws, and the answers of the database, the password check and the filters are arguments.
- The server's packet handlers are atomic steps; `KeyInstall` takes the handler of KEY_ACCEPT apart where it gives up its
  lock. In the handshake the packets of a connection may be handled in any order, as the workers of the pool do, and those
  left when it is closed at any time later, under the same fd. In the registry and the relay a packet is one of whoever has
  its fd when it is handled. The thread pool is modelled at the grain of its mutex and condition variable.
- A length field that points past its payload reads arbitrary bytes, which are an argument.
- Unsigned 32-bit lengths wrap where the source's do. `double` is modelled by `real`.
- A rule that the code and its messages state differently is modelled as the code has it: nicknames have 3 to 32
  characters, although the rejection text says 3 to 16.

## Where the code falls short of a rule

Each of these is stated as the exact condition under which the rule holds, with a lemma that exhibits a failing input.

- A packet's task knows its fd and not its connection. A KEY_ACCEPT left over from a closed connection, handled when the
  next one on that fd has been sent its offer, installs the old connection's key: both ends are then ready with different
  keys (`Handshake.LeftoverExact` for a step, `HandshakeRuns.OwnKeysExactly` for a run, failing run
  `HandshakeProgress.LeftoverKeyInstalled`). The theorems about keys are for the runs that meet that condition,
  `HandshakeRuns.Undisturbed`.
- The handler of KEY_ACCEPT hands the key on after it gave up its lock. If the connection is closed in between, the key
  stays under its fd and the next connection there is established without its own (`KeyInstall.LateInstallExact`, failing
  run `KeyInstall.KeyOutlivesConnection`).
- A client whose read failed is marked as disconnected, and a later disconnect() returns before it clears anything: key,
  nonces and readiness stay (`HandshakeProgress.DisconnectClearsExactly`, failing run `HandshakeProgress.KeySurvivesDisconnect`).
- Anyone's accept or reject of a file transfer counts, not only the receiver's (`FileParties.ConsentExactly`,
  `FileParties.OutsidersExactly`, failing run `FileParties.StrangerOpensTheWay`).
- A file transfer outlives the connections of its parties, so its chunks go to whoever is given the receiver's fd
  (`FileParties.ChunkReachesNamedExactly`, failing run `FileParties.NewcomerGetsChunk`).
- A second login over a connection that is already logged in leaves its old room and nickname entries behind
  (`Registry.SecondLoginExact`, failing run `RegistryExamples.SecondLoginLeavesMember`).
- A reconnect does not ask whether its nickname is online, and makes the older session unreachable by name
  (`Registry.FindableExact`, failing run `RegistryExamples.ReconnectTakesOver`).
- A kicked user who logs in again is put back into the room if it was the last one they joined
  (`Registry.KickUndoneExactly`, failing run `RegistryExamples.KickedUserReturns`).
- The chat history sorts by time when it reads the table, so entries written after the clock went back come out of order
  (`ChatHistory.RecentIsTailExactly`, failing run `ChatHistory.FallingTimesSwap`).
- Each process starts its audit chain at GENESIS, so a table that more than one process has written to is refused
  (`AuditChain.RestartBreaksChain`, failing run `AuditChain.TwoProcessesRefused`).
- The handshake decoders check lengths in 32-bit arithmetic, which admits a field longer than the payload when the sum
  wraps (`Crypto.AcceptLengthCheckExact`, `Crypto.OfferLengthCheckExact`, failing inputs `Crypto.LengthsThatWrap`).

## Model

| member | source | states |
|---|---|---|
| `Registry.IndexesAgree` | server/core/TcpServer.cpp:412-969 | In every run with one login per connection: an fd is a member of a room exactly if it is a live logged-in session whose room that is; the room of every logged-in session exists; every nickname entry leads to a live session logged in under that name |
| `Registry.InvHolds` | server/core/TcpServer.cpp:412-987 | The registry invariant holds after every handler of every run, restarts included |
| `Registry.StepInv` | server/core/TcpServer.cpp:706-969 | Every handler keeps the invariant: indexes in agreement, room table a copy of the database, room limit |
| `Registry.ChatReachesRoom` | server/core/TcpServer.cpp:579-613 | In every reachable state a chat line goes to the sender and to exactly the sessions logged in to the sender's room |
| `Registry.ChatSentOnceToEach` | server/core/TcpServer.cpp:579-613 | In every reachable state the list of fds a chat line is sent to is strictly ascending, so no fd is repeated, and holds exactly the sessions logged in to the sender's room |
| `Registry.RestartRebuilds` | server/core/TcpServer.cpp:106-118 | After every run the room table equals, but for the members, what a restart would load from the Rooms and RoomBans tables, and has at most MAX_ROOMS rooms |
| `Registry.EmptyDatabaseBoots` | server/core/TcpServer.cpp:116-118 | On an empty database the server starts, with the default room alone, so the run theorems apply |
| `Registry.SameRooms` | server/core/TcpServer.cpp:738-746 | No handler but create and delete changes the set of rooms: `operator[]` never makes a stray one |
| `Registry.StepCount` | server/core/TcpServer.cpp:841-860 | A handler adds a room only if it is a create of that room below the limit, and the table stays within the limit |
| `Registry.DeleteIndexed` | server/core/TcpServer.cpp:757-808 | Deleting a room keeps all indexes in agreement |
| `Registry.DeleteMoves` | server/core/TcpServer.cpp:757-808 | Exactly the members of the deleted room move, to the default room, and exactly that room goes |
| `Registry.DeleteCached` | server/security/AuthManager.cpp:383-393 | Deleting a room with its cascade to the bans keeps the room table a copy of the tables |
| `Registry.KickCached` | server/core/TcpServer.cpp:864-881 | A kick enters the ban in the room table and in the RoomBans table, and keeps the two in agreement |
| `Registry.UnkickCached` | server/core/TcpServer.cpp:883-891 | Lifting a ban keeps both in agreement |
| `Registry.CreateCached` | server/security/AuthManager.cpp:325-351 | A create below the limit enters the room in the room table and in the Rooms table with the same creator and password flag, and keeps the two in agreement |
| `Registry.SecondLoginExact` | server/core/TcpServer.cpp:474-501 | A second login over a logged-in session keeps the indexes in agreement if and only if it leads to the same room and leaves no other nickname entry of that fd behind |
| `Registry.FindableExact` | server/core/TcpServer.cpp:513-577 | A step keeps every logged-in session reachable by its nickname if and only if it is not a reconnect under a nickname that is online |
| `Registry.JoinExactly` | server/core/TcpServer.cpp:706-751 | A join enters a room if and only if its name is not empty, it exists, the password fits if it has one, and the nickname is not banned there |
| `Registry.KickUndoneExactly` | server/core/TcpServer.cpp:864-881 | After kick, disconnect and login the user is banned from the room and yet a member of it, if and only if it was their last joined room |
| `RegistryExamples.SecondLoginLeavesMember` | server/core/TcpServer.cpp:474-501 | A run from a fresh start after which a second login leaves an fd a member of a room it is no longer in |
| `RegistryExamples.ReconnectTakesOver` | server/core/TcpServer.cpp:513-577 | A run in which a reconnect takes over the nickname of a user who is online |
| `RegistryExamples.KickedUserReturns` | server/core/TcpServer.cpp:864-881 | A run with kick, disconnect and login after which the banned user is a member of the room |
| `RegistryExamples.SomeCast` | server/core/TcpServer.cpp:1048-1051 | Names and fds exist for which these runs are possible |
| `RoomServer.TcpServer.constructor` | server/core/TcpServer.cpp:106-118 | The loop over the stored rooms builds exactly the room table of the tables plus the default room |
| `RoomServer.TcpServer.HandleConnectRequest` | server/core/TcpServer.cpp:412-511 | The object is left as the login transition says, on every path |
| `RoomServer.TcpServer.HandleReconnectRequest` | server/core/TcpServer.cpp:513-577 | The same for a reconnect |
| `RoomServer.TcpServer.HandleRoomJoin` | server/core/TcpServer.cpp:706-755 | The same for a join |
| `RoomServer.TcpServer.HandleRoomLeave` | server/core/TcpServer.cpp:893-920 | The same for a leave |
| `RoomServer.TcpServer.HandleRoomCreate` | server/core/TcpServer.cpp:832-862 | The same for a create |
| `RoomServer.TcpServer.HandleRoomDelete` | server/core/TcpServer.cpp:757-808 | The loop over the members of the deleted room arrives at the delete transition, members whose session is gone left out |
| `RoomServer.TcpServer.KickFromRoom` | server/core/TcpServer.cpp:864-881 | The object is left as the kick transition says |
| `RoomServer.TcpServer.UnkickFromRoom` | server/core/TcpServer.cpp:883-891 | The object is left as the unkick transition says |
| `RoomServer.TcpServer.RemoveSession` | server/core/TcpServer.cpp:940-969 | The object is left as the disconnect transition says |
| `RoomServer.TcpServer.BroadcastToRoom` | server/core/TcpServer.cpp:971-987 | The fds sent to are the members of the room with a session but the excluded one, in ascending order |
| `RoomServer.TcpServer.HandleChatSend` | server/core/TcpServer.cpp:579-613 | A line from a logged-in sender that passes the mute, rate, filter and length checks goes to the recipients of the sender's room in ascending order; any other goes to no one |
| `SecureChannel.ClientToServer` | client/core/TcpClient.cpp:125-160 | In every run without a harmful left-over packet, once a client is ready, its messages of up to MAX_PAYLOAD_LEN - 32 bytes reach the server's dispatch with type and plaintext unchanged, however the stream is cut into reads and in whatever order the packets are handled: dispatched in that same order, which is the order of sending if they are handled so |
| `SecureChannel.ServerToClient` | server/core/ClientSession.cpp:93-137 | The same from the server to the client's packet callback |
| `SecureChannel.SendersAgree` | server/core/ClientSession.cpp:93-113 | What either end's sendPacket produces after the handshake is the packet those theorems speak of |
| `SecureChannel.SizeLimitExact` | common/Constants.h:10 | Up to the limit a message is parsed back; a longer plaintext of less than 2^32 - 32 bytes is never delivered and closes the connection at either end |
| `FrameStream.ChunkingIrrelevant` | server/core/ClientSession.cpp:38-83 | However a stream is cut into reads, the session delivers the packets of a one-pass parser, ends equally open or closed and keeps the same bytes |
| `FrameStream.FrameDecomposition` | server/core/ClientSession.cpp:46-79 | Every stream is complete frames and a remainder; the intact frames are delivered in order, damaged ones skipped; the remainder is kept if it is the start of a frame and closes the session otherwise |
| `FrameStream.SessionReader.AppendAndParseBytes` | server/core/ClientSession.cpp:38-83 | The read buffer and the packets delivered are what the one-pass parser says of buffer and read together |
| `FrameStream.SessionReader.ParseFrame` | server/core/ClientSession.cpp:47-78 | One turn of that loop: a frame passed, a bad header, or a frame not all there, each with what it means for the outcome |
| `FrameStream.SessionReader.ParseFrames` | server/core/ClientSession.cpp:46-79 | The loop over the buffer delivers, stops and closes where the one-pass parser does |
| `FrameStream.RoundTripIff` | server/protocol/Packet.cpp:29-44 | A serialized packet is parsed back if and only if its header passes the checks and states the payload's length |
| `FrameStream.Socket.RecvAll` | server/protocol/Packet.cpp:46-64 | Short reads and interrupts in any pattern fill the buffer with the next bytes, or fail exactly if the stream ends first |
| `FrameStream.Socket.ReadPacketFromFd` | server/protocol/Packet.cpp:66-94 | Reads exactly the first frame of the stream, and fails on a short stream, a bad header or a wrong checksum |
| `FrameStream.ReadersAgree` | server/protocol/Packet.cpp:66-94 | What the blocking reader delivers is a prefix of what the session's parser delivers on the same stream |
| `Framing.HeaderRoundTrip` | common/Protocol.h:14-26 | Every packed header is read back as it was written |
| `Framing.PacketToBytes` | server/protocol/Packet.cpp:29-44 | The filled buffer is the header with the payload's CRC written over its last four bytes, then the payload |
| `Framing.ServerReceivesSent` | server/core/ClientSession.cpp:38-83 | Serialized packets, cut into reads anywhere, reach the server as exactly those packets |
| `Framing.ClientReceivesSent` | server/protocol/Packet.cpp:66-94 | Serialized packets reach the client's loop as exactly those packets |
| `Framing.DamagedFrame` | server/core/ClientSession.cpp:67-71 | A payload damaged inside 32 consecutive bits is never delivered: the session skips the frame and stays in step, the client closes |
| `Framing.DamagedBytes` | server/protocol/Packet.cpp:88-90 | The same for damage inside four consecutive bytes |
| `Crc32.ComputeCrc32` | server/protocol/Packet.cpp:12-27 | The nested loops compute the specified CRC |
| `Crc32.BitwiseIsTableDriven` | server/protocol/Packet.cpp:17-24 | From every state the bitwise loop equals the table-driven update of section 8 of RFC 1952 |
| `Crc32.RunConcat` | server/protocol/Packet.cpp:15-25 | Processing a concatenation continues from the intermediate state |
| `Crc32.CheckValue` | server/protocol/Packet.cpp:12-27 | The text of the digits 1 to 9 has the CRC 0xCBF43926 |
| `Crc32.TableValues` | server/protocol/Packet.cpp:19-23 | Two table entries that pin the polynomial |
| `Crc32.BurstChangesCrc` | server/protocol/Packet.cpp:12-27 | Every burst of at most 32 consecutive bits changes the CRC |
| `Crc32.ByteBurstChangesCrc` | server/protocol/Packet.cpp:12-27 | Every change inside four consecutive bytes changes the CRC |
| `HandshakeRuns.OwnKeysExactly` | server/core/TcpServer.cpp:256-306 | In every run, the keys the server holds for the connections it keeps have been their clients' own all along, if and only if no left-over packet was a readable KEY_ACCEPT handled for a connection that had been sent its offer and not answered it, with a key that its client does not hold (a client that is gone without a key does not count) |
| `Handshake.LeftoverExact` | server/security/KeyExchange.cpp:85-152 | The same for one step: a left-over packet keeps the server's keys the clients' own, and the whole invariant, if and only if it is harmless in that sense |
| `HandshakeProgress.LeftoverKeyInstalled` | server/core/TcpServer.cpp:256-260 | A run of nine steps with two connections one after the other on one fd, after which the second client is connected and ready with a key that differs from the server's |
| `HandshakeRuns.KeyAgreement` | server/security/KeyExchange.cpp:85-152 | In every run of any number of clients, with fds reused, connections lost, packets handled in any order and tasks left over from closed connections, none of which was harmful: whenever both ends of a connection hold a key it is the same key |
| `HandshakeRuns.ReadyMeansInstalled` | client/security/ClientCrypto.cpp:101-112 | In those runs a ready client, connected or not, holds a key the server installed for that connection at an earlier step |
| `HandshakeRuns.ReadyAndKept` | client/security/ClientCrypto.cpp:101-112 | In those runs, while the server keeps the connection of a ready client, it holds that client's key |
| `HandshakeRuns.InvHolds` | server/core/TcpServer.cpp:262-306 | The invariant behind these holds in every world reached by harmless steps |
| `HandshakeRuns.ReadySendDispatched` | server/core/TcpServer.cpp:262-289 | Whenever the server handles a packet that a ready client sent, it passes on exactly the plaintext and changes nothing, with packets of this, other and closed connections handled in between in any order, if no harmful left-over packet was handled before it was sent |
| `HandshakeRuns.KeyStays` | server/security/CryptoEngine.cpp:45-56 | In every run, whatever is left over and handled, while the server keeps a connection its fd and its installed key do not change |
| `HandshakeRuns.PacketsConserved` | server/core/TcpServer.cpp:256-260 | What was sent to the server on a connection is what was handled, before the connection was closed or after, and what is still under way or left over: nothing lost, repeated or invented |
| `HandshakeProgress.HandshakeCompletes` | client/core/TcpClient.cpp:84-92 | From any world a new connection from an address that is not blocked is ready after four packets, with the client's key on both ends |
| `HandshakeProgress.KeySurvivesDisconnect` | client/core/TcpClient.cpp:99-102 | A run in which a read fails and disconnect() then leaves the key in place and the client ready |
| `HandshakeProgress.DisconnectClearsExactly` | client/core/TcpClient.cpp:99-176 | In every run disconnect() leaves the client without key, nonces and readiness if and only if no read had failed on the connection while the client had any of them |
| `KeyInstall.LateInstallExact` | server/security/KeyExchange.cpp:142-149 | Whatever packets, closings and new connections come between setting the phase and handing the key on, keys and phases agree afterwards if and only if the fd is then established, as it is, with its own key, if it was open all the while |
| `KeyInstall.KeyOutlivesConnection` | server/security/CryptoEngine.cpp:45-56 | With the connection closed in between the key stays, and the next connection on the fd is established under it |
| `KeyExchange.KeysMatchPhases` | server/core/TcpServer.cpp:262-306 | In every run, whatever packets arrive, after every handler an fd has a session key exactly if its handshake state is ESTABLISHED |
| `KeyExchange.HandlePacketKeepsConsistent` | server/core/TcpServer.cpp:262-306 | One packet of any kind keeps that |
| `KeyExchange.KeyExchange.HandleHello` | server/security/KeyExchange.cpp:34-83 | State and reply are those of the specification on every path: unknown fd, blocked address, wrong phase, offer |
| `KeyExchange.KeyExchange.HandleKeyAccept` | server/security/KeyExchange.cpp:85-152 | The same for KEY_ACCEPT of any content, with the key handed on exactly on success |
| `KeyExchange.KeyExchange.NoteFailure` | server/security/KeyExchange.cpp:195-204 | The failure count of an address and the time it is blocked |
| `KeyExchange.CryptoEngine.EstablishSession` | server/security/CryptoEngine.cpp:45-56 | A key of 32 bytes is kept unless the fd has one already; any other is refused |
| `Crypto.OfferRoundTrip` | server/security/KeyExchange.cpp:66-82 | A KEY_OFFER payload decodes to the key text and nonce it was made from |
| `Crypto.AcceptRoundTrip` | client/security/ClientCrypto.cpp:89-98 | A KEY_ACCEPT payload decodes to the ciphertext it was made from |
| `Crypto.AcceptLengthCheckExact` | server/security/KeyExchange.cpp:100-118 | The length check lets a field run past the payload if and only if its 32-bit sum wraps |
| `Crypto.OfferLengthCheckExact` | client/security/ClientCrypto.cpp:45-59 | The same for the client's check of an offer |
| `Crypto.LengthsThatWrap` | server/security/KeyExchange.cpp:108-118 | A KEY_ACCEPT of four bytes and a KEY_OFFER of twenty that pass the check and point past their payload |
| `ClientCrypto.TcpClient.Connect` | client/security/ClientCrypto.cpp:32-36 | A connection starts with no secrets and a HELLO on its way |
| `ClientCrypto.TcpClient.Disconnect` | client/core/TcpClient.cpp:99-119 | A connected client is left with no key, cipher, nonce or readiness; one whose connection is gone is left as it is |
| `ClientCrypto.TcpClient.ProcessKeyOffer` | client/security/ClientCrypto.cpp:38-99 | For an offer of any content the state and the answer are those of the specification, or none when the source throws |
| `ClientCrypto.TcpClient.ReceiveOne` | client/core/TcpClient.cpp:162-233 | One round of the receive loop, every path, the failed read included |
| `RateLimiter.AllowedExactly` | server/security/RateLimiter.cpp:9-24 | A call is allowed if and only if, counted from every earlier call and from itself, what was admitted since plus its cost is within the burst plus what the interval granted |
| `RateLimiter.BurstPlusRateExact` | server/security/RateLimiter.h:24-26 | The same with the source's linear refill: within max(1, max_tokens) + refill_rate * (t - t_j) |
| `RateLimiter.WindowBound` | server/security/RateLimiter.cpp:9-24 | Every window of calls admits at most the burst plus what the clock grants in it |
| `RateLimiter.SpacedCallsAdmitted` | server/security/RateLimiter.cpp:9-24 | A caller whose unit calls are each granted a token in time is never rejected |
| `RateLimiter.SpacedByRateAdmitted` | server/security/RateLimiter.cpp:9-24 | With the source's linear refill: unit calls at least 1/refill_rate apart are never rejected |
| `RateLimiter.RejectionIrrelevant` | server/security/RateLimiter.cpp:9-24 | Dropping a rejected call from a history changes the outcome of no later call |
| `RateLimiter.KeysIsolated` | server/security/RateLimiter.cpp:46-69 | The answers for a key are those of its own history alone |
| `RateLimiter.TokenBucket.TryConsume` | server/security/RateLimiter.cpp:9-24 | Answer and bucket are those of the specification |
| `RateLimiter.Limiter.CheckLimit` | server/security/RateLimiter.cpp:55-83 | Answer and table are those of the specification, the bucket made full on first use |
| `RateLimiter.Limiter.RemoveKey` | server/security/RateLimiter.cpp:46-53 | The bucket of the key is forgotten, and no other |
| `ThreadPool.FifoExactlyOnce` | server/core/ThreadPool.cpp:15-22 | Under every interleaving the accepted tasks are the taken ones followed by the queue, in order |
| `ThreadPool.NoLostWakeup` | server/core/ThreadPool.cpp:41-50 | No reachable state has a queued task, every worker asleep and no notification pending |
| `ThreadPool.NoIdleWorkerForQueuedTask` | server/core/ThreadPool.cpp:41-50 | While a worker sleeps, every queued task has a worker on its way or a notification to come |
| `ThreadPool.ExitedMeansDrained` | server/core/ThreadPool.cpp:41-50 | When all workers have exited, every accepted task was taken |
| `ThreadPool.JoinMeetsNoSleeper` | server/core/ThreadPool.cpp:29-39 | shutdown never waits to join a sleeping worker |
| `ThreadPool.NeverStuck` | server/core/ThreadPool.cpp:15-61 | With at least one worker, unless the pool is at rest some thread inside it can take a step |
| `ThreadPool.WorkDecreases` | server/core/ThreadPool.cpp:15-61 | Every step inside the pool decreases a measure of the work left |
| `ThreadPool.EveryScheduleComesToRest` | server/core/ThreadPool.cpp:15-61 | From every reachable state every schedule is bounded by that measure, whoever goes first; where it ends, every accepted task was taken and has been run, and a shutdown that was called has joined every worker |
| `FileCopy.FileArrives` | client/core/ConnectionManager.cpp:530-625 | A non-empty file uploaded over an accepted transfer, amid any other traffic, arrives byte for byte, is counted in full, completes once and is acknowledged to the sender once |
| `FileCopy.Relays` | server/features/FileTransfer.cpp:183-241 | Amid any other traffic the receiver is sent exactly the sender's chunks in order, then the end |
| `FileCopy.Arrives` | client/core/ConnectionManager.cpp:570-625 | However messages of other transfers are mixed in, the receiver's file is the chunks put together |
| `FileCopy.ClosedFilesSafe` | client/core/ConnectionManager.cpp:570-603 | A file no download is writing to is never changed, whatever arrives |
| `FileCopy.UploadWorker` | client/core/ConnectionManager.cpp:530-568 | The read loop sends the file in chunks of 4096, the first one marked, with no empty chunk even if the size is a multiple, then the end |
| `FileCopy.ChunksJoin` | client/core/ConnectionManager.cpp:539-560 | The chunks put together are the file, and none is empty or longer than 4096 |
| `FileCopy.ConnectionManager.HandleFileData` | client/core/ConnectionManager.cpp:570-603 | Downloads and disk are those of the specification, first chunk or later, empty or not |
| `FileCopy.ConnectionManager.HandleFileRequest` | client/core/ConnectionManager.cpp:484-502 | A fresh download is recorded |
| `FileCopy.ConnectionManager.HandleFileComplete` | client/core/ConnectionManager.cpp:605-625 | A recorded download ends with one acknowledgement; an unknown one with none |
| `FileNames.GetUniqueFilename` | client/core/ConnectionManager.cpp:18-33 | The search ends with the first free name |
| `FileNames.FirstFreeIsFirst` | client/core/ConnectionManager.cpp:25-32 | The chosen variant is free and every earlier one is taken |
| `FileNames.UniqueNameFresh` | client/core/ConnectionManager.cpp:18-33 | The chosen name is never one that exists |
| `FileRelay.DataRelayed` | server/features/FileTransfer.cpp:183-210 | In every run a chunk goes out only as it came from the fd that opened the transfer, to the fd it named, after an accept, with the transfer open all the while |
| `FileParties.ChunkReachesNamedExactly` | server/features/FileTransfer.cpp:183-210 | With connections coming and going, a relayed chunk reaches the connection the request named if and only if the receiver's fd was not closed since the request; and, if request and chunk were handled while their connections were there, it came over the connection that made the request if and only if the sender's fd was not closed either |
| `FileParties.NewcomerGetsChunk` | server/features/FileTransfer.cpp:199-208 | A run in which the receiver leaves and a chunk goes to the connection that was given its fd |
| `FileParties.ConsentExactly` | server/features/FileTransfer.cpp:136-158 | In every run, no transfer was ever under way without an accept from its receiver since it was opened, if and only if no one else ever accepted a waiting one |
| `FileParties.OutsidersExactly` | server/features/FileTransfer.cpp:136-262 | A packet from neither party changes a transfer if and only if it is a reject of it, or an accept of it while it is not accepted |
| `FileParties.StrangerOpensTheWay` | server/features/FileTransfer.cpp:136-158 | A run in which a third client accepts and a chunk goes to a receiver that never did |
| `FileRelay.EndsExactly` | server/features/FileTransfer.cpp:160-300 | A transfer ends exactly on a reject, the receiver's ACK, a chunk for a receiver that is gone, or expiry |
| `FileRelay.SilentAfterEnd` | server/features/FileTransfer.cpp:160-300 | With unique ids nothing is ever sent for a transfer that has ended |
| `FileRelay.SurvivorsFresh` | server/features/FileTransfer.cpp:264-300 | What a sweep leaves was active in the last 5 seconds if it is in progress, and was opened in the last 120 otherwise |
| `FileRelay.FileTransfer.HandleRequest` | server/features/FileTransfer.cpp:61-134 | Table and packets sent are those of the specification |
| `FileRelay.FileTransfer.HandleAccept` | server/features/FileTransfer.cpp:136-158 | The same for an accept, from whomever it comes |
| `FileRelay.FileTransfer.HandleReject` | server/features/FileTransfer.cpp:160-181 | The same for a reject, from whomever it comes |
| `FileRelay.FileTransfer.HandleData` | server/features/FileTransfer.cpp:183-210 | The same for a chunk |
| `FileRelay.FileTransfer.HandleComplete` | server/features/FileTransfer.cpp:212-241 | The same for the end, whatever the status |
| `FileRelay.FileTransfer.HandleAck` | server/features/FileTransfer.cpp:243-262 | The same for an acknowledgement |
| `FileRelay.FileTransfer.CleanupExpired` | server/features/FileTransfer.cpp:264-300 | Erasing while iterating leaves exactly the entries that are not expired, unchanged, and tells the waiting side of each running one dropped |
| `ChatHistory.RecentIsTailExactly` | server/rooms/ChatHistory.cpp:88-94 | After any appends and restarts, for every n the recent entries are the last n that were said in the room, from buffer or table, if and only if times never went back |
| `ChatHistory.FallingTimesSwap` | server/rooms/ChatHistory.cpp:58-94 | Two entries with falling times, read back after a restart, come out the other way round |
| `ChatHistory.LoadsTailExactly` | server/rooms/ChatHistory.cpp:58-86 | The query returns the last n rows of a room for every n if and only if their times never go back |
| `ChatHistory.NewestOrdered` | server/rooms/ChatHistory.cpp:63-65 | The query's order is a permutation of the rows, newest first, later row first among equal times |
| `ChatHistory.TableIsLog` | server/rooms/ChatHistory.cpp:37-56 | The rows of a room in the shared table are what was said there, in order, kinds included |
| `ChatHistory.BufferIsTail` | server/rooms/ChatHistory.cpp:27-35 | The buffer is always the end of what was said, and never over 100 entries |
| `ChatHistory.RowRoundTrip` | server/rooms/ChatHistory.cpp:13-25 | An entry is read back from its row, kind included |
| `ChatHistory.RoomHistory.Append` | server/rooms/ChatHistory.cpp:27-35 | The trimming loop keeps the last 100 entries; one row is inserted |
| `ChatHistory.RoomHistory.LoadFromDb` | server/rooms/ChatHistory.cpp:58-86 | The loop over the result rows and the reversal yield the specified list |
| `ChatHistory.RoomHistory.GetRecent` | server/rooms/ChatHistory.cpp:88-94 | Buffer or table, as the specification says |
| `Lockout.FailuresBounded` | server/security/AuthManager.cpp:271-288 | Without a success in between, any stretch of T seconds sees at most 5 + T / 900 failed passwords on an account |
| `Lockout.LockedExactly` | server/security/AuthManager.cpp:302-323 | An account is locked at t if and only if at least 5 passwords failed since the last success and t is before the last failure + 900 |
| `Lockout.AccountsIsolated` | server/security/AuthManager.cpp:271-300 | What happens to an account depends on the attempts on it alone |
| `Lockout.AuthManager.Authenticate` | server/security/AuthManager.cpp:116-165 | Outcome and rows are those of the specification: locked, unknown nickname, wrong and right password |
| `Lockout.AuthManager.IncrementFailedAttempts` | server/security/AuthManager.cpp:271-288 | The count and, from the fifth failure on, the time of the lock |
| `Lockout.AuthManager.IsAccountLocked` | server/security/AuthManager.cpp:302-323 | Whether the account is locked |
| `SessionToken.GeneratedIsValid` | server/security/SessionToken.cpp:115-211 | A token validates to the nickname, role, times and id it was made with; it is valid exactly until it expires or its id is revoked |
| `SessionToken.NeverValidAgain` | server/security/SessionToken.cpp:213-238 | No text whatever validates after it was revoked, whatever else is revoked before or after |
| `SessionToken.OthersKept` | server/security/SessionToken.cpp:213-238 | Revoking a token revokes its id alone and leaves tokens with other ids as they were |
| `SessionToken.SplitJoin` | server/security/SessionToken.cpp:150-160 | Splitting at the first two dots finds the parts again |
| `SessionToken.ReferenceDecoderLawful` | server/security/SessionToken.cpp:78-102 | The decoder of section 4 of RFC 4648 obeys the law the library is held to |
| `SessionToken.TokenManager.GenerateToken` | server/security/SessionToken.cpp:115-142 | The specified token |
| `SessionToken.TokenManager.ValidateToken` | server/security/SessionToken.cpp:144-211 | The specified claims, on every path, with those set that come before the first missing field |
| `SessionToken.TokenManager.RevokeToken` | server/security/SessionToken.cpp:213-238 | The specified blacklist: the id is added if the payload has one, whatever else it lacks and whatever the signature |
| `Base64Url.UrlRoundTrip` | server/security/SessionToken.cpp:53-102 | Every non-empty byte string is decoded back from its URL-safe text, which has no dot, padding or reserved character |
| `Base64Url.StandardUndoes` | server/security/SessionToken.cpp:78-87 | The decoder is given back exactly the text of section 4 of RFC 4648, padding included |
| `Base64Url.Base64UrlEncode` | server/security/SessionToken.cpp:53-76 | The replacements and the stripping yield the URL-safe text |
| `Base64Url.Base64UrlRestore` | server/security/SessionToken.cpp:78-87 | The replacements and the padding loop yield the text for the decoder |
| `AuditChain.NothingLost` | server/security/AuditLogger.cpp:81-140 | Rows and buffer together are the rows found at the start and then the logged events, in order and chained |
| `AuditChain.ChainAccepted` | server/security/AuditLogger.cpp:142-186 | In one process on an empty table the rows are a prefix of the log and the check accepts them at every moment |
| `AuditChain.OnlyPrefixesAccepted` | server/security/AuditLogger.cpp:160-180 | With distinct hashes, rows drawn from the log at any positions, left out, repeated or moved, are accepted if and only if they are a prefix of it |
| `AuditChain.RestartBreaksChain` | server/security/AuditLogger.cpp:28 | For any number of processes one after another, the check accepts the table they leave if and only if at most one of them has rows in it |
| `AuditChain.TwoProcessesRefused` | server/security/AuditLogger.cpp:28 | Two processes that log and flush one event each leave rows that the check refuses |
| `AuditChain.AuditLogger.LogEvent` | server/security/AuditLogger.cpp:81-104 | The event is chained and buffered, and the buffer flushed at 100 |
| `AuditChain.AuditLogger.FlushBuffer` | server/security/AuditLogger.cpp:106-140 | The buffer moves to the table in order, if the database is open |
| `AuditChain.AuditLogger.VerifyChain` | server/security/AuditLogger.cpp:142-186 | Accepts if and only if the database is open and every row names the hash of the row before it |

## Left out

- Sockets, epoll, console input and output, and the client's reconnection attempts: I/O around the modelled code.
- RSA, AES-GCM, HMAC, PBKDF2 and SHA-256 themselves, JSON text and SQL text: foreign code, present through the laws named above.
- What the base64 library does with text that is not base64; the token theorems hold for any such behaviour.
- Interleavings inside the handlers, but for the one in `KeyInstall`: the source updates session fields, indexes, phases and keys under different locks, and the run theorems are about atomic handlers.
- The client starts its receive thread a moment before it resets the handshake state; the model connects in one step.
- System notices, room lists, private chat, pings, mutes and administrator commands other than kick, unkick, promote and demote: they change none of the modelled indexes.
- Database errors other than a failed room insert; the run theorems are for writes that succeed.
- Rounding of `double` in the token bucket, and clocks that go backwards in it.
- The IntrusionDetector's bans, the MessageFilter, Config and Logger, and the RoomManager functions that the packet path does not call.
- Clean-up of old chat history and of timed-out handshakes, which nothing calls.
- File names with directory separators on the receiving side: the relay removes them before they are sent.
- The SHA-256 of a transferred file, which is carried but never compared.
- `verifyChain` recomputes each row's hash and does not compare it with the stored one, so nothing is claimed about rows altered in place.
- Two updates of one audit row or one account at the same moment by different threads.
- RecvAll: bounds the number of interrupted reads by a parameter, because the source retries without end.
- HandleRequest: takes the mute, size, name and extension checks of an offer as one yes-or-no answer, because each is a single comparison.
- SizeLimitExact: is for plaintexts of less than 2^32 - 32 bytes, because the stated length of a longer one wraps and what follows is parsed as frames of its own.
- ClientToServer: is for runs without a harmful left-over packet, because the code fails it otherwise, and claims the order of sending only for packets handled in that order, because the pool's workers run concurrently.
- KeyAgreement: is for runs without a harmful left-over packet, because the code fails it otherwise.
- ReadyMeansInstalled: is for runs without a harmful left-over packet, because the code fails it otherwise.
- ReadyAndKept: is for runs without a harmful left-over packet, because the code fails it otherwise.
- ReadySendDispatched: is for runs that reach the sending without a harmful left-over packet, because the code fails it otherwise.
- ServerToClient: is for runs without a harmful left-over packet, because the code fails it otherwise.
- BroadcastToRoom: gives the fds in the order of sending instead of modelling the sends themselves, because a send has no effect on the registry.
- FileArrives: is for transfers whose packets are handled in order with the receiver online and no expiry in between, which is when the design promises delivery.
