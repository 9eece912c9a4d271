# Verified model of the game server

This project models the parts of the server where bytes, state and money can go wrong, and proves what they
promise. Run `dafny verify dfyconfig.toml`; every proof is checked by Dafny 4.11 alone.

- **TCP stream** (`Lzss`, `LzssRoundTrip`, `LzssCodec`, `LogicalStream`). The stateful LZSS encoder, the resumable
  decoder, their shared 4096-byte ring window, and the framing of logical packets on top. The specification works on
  the unbounded history of bytes; the classes `LzssEncoder` and `LzssDecoder` keep the ring and are proved to
  compute the same. Encoding and then decoding does *not* always give the input back: a match that overlaps the
  bytes being encoded is compared against stale ring bytes, and a match of length 4 at distance 1 is written as the
  group terminator. `Decodable` is the exact condition, in terms of the matches the encoder chooses.
- **UDP wire format** (`UdpProtocol`, `UdpMessages`). Permuted length byte, keyed opcode and payload, both
  checksums, packet streams and frames.
- **UDP peer** (`UdpPeer`, `UdpCombat`, `UdpRuns`, `UdpMoments`, `UdpSessionRuns`, `UdpLedger`, `UdpEffects`,
  `UdpTurns`, `UdpTimes`, `UdpReading`, `UdpGameServer`). One turn of the receive loop as a step function on a peer,
  its sent frames and its queued mission results. The session and mission part is written for any rules of combat,
  `Config.rules`; the results are about `NativeConfig`, where the rules are those of `UdpCombat`. A datagram comes
  decoded, as `Arrived` decodes its bytes. `UdpRuns` shows that a step is a list of small moves, each of them one
  thing the server does, and gives the induction principle behind the theorems over every run from a new peer; those
  about combat hold after every move, not only at the end of a datagram. `UdpMoments` gives every frame of a run the
  moment it is sent. The run theorems say what can only happen so often; that it does happen is said by `UdpEffects`
  for every combat packet, from its own words, and by `UdpTurns` and `UdpTimes` for the world, the start, the tick,
  the result and the answers of a turn. The class `PeerState`, whose fields are updated datagram by datagram, is
  proved to refine the step function, from the bytes received to the bytes sent. Its fields are grouped in records,
  such as `counters` and `progress`.
- **Account database** (`Json`, `JsonParser.dfy`, `JsonText`, `JsonReading`, `AccountRecords`, `AccountKeys`,
  `AccountText`, `AccountRoundTrip`, `AccountNames`, `AccountDatabase.dfy`). The JSON parser as a function on the
  remaining text and as the class `JsonParser` with its position; the printers as a layout of records and as the
  class `TextStream`; the readers; and the database object with its file.
- **raw1 packs** (`Raw1`, `Raw1RoundTrip`, `Raw1Repack`, `Raw1Packer`). Positional cipher, directory table, archive
  layout, the reader, and the three repack modes. The format is written for any cipher that masks a byte at a
  position and undoes itself; `Raw1.ToolCodecIsValid` shows the tool's cipher is one. Of the compressor it is
  assumed only that inflate undoes deflate and that deflate output is not empty.
- **Inventory and shop** (`Inventory`, `InventoryBuying`, `InventoryOrder`, `InventoryExpansion`,
  `InventoryDelivery`, `InventoryRuns`, `InventoryService`, `Shop`). Packages opened by mutual recursion, sorted
  lists, equipment, what any list of operations keeps, and a purchase as one transaction over the stored profile.
  `InventoryDelivery` says what arrives, for every item and every list of every character, without the functions
  that bring it there.

Values that come from outside are parameters: the clock reading of a turn, what the sync provider would answer, the
iteration order of a hash map (any enumeration of its keys), the length of a name in UTF-16 units, the files of a
directory, the compressor, the item catalog. Texts in the database are byte strings, a character standing for the byte
of its code; motions and scene keys are UTF-16 code units.

Results that correct an expectation:

- The codec round trip fails on a fresh pair for the call 7, 7, 0, 0, 0. It holds exactly when the call is
  decodable, for instance whenever every match chosen is at least as far back as it is long, or the call length
  modulo 8 is below 4.
- A success can only be queued while the player and all objectives are alive, although the success branch does not
  look at them, and for every sync context.
- The reader of a pack can never take a secondary header for a primary one: the two magic sums exclude it. Only a
  primary pack of more than a million entries is written and then refused.
- Saving and loading accounts is the identity exactly when every nickname is absent, or not empty and trimmed.
  Others come back trimmed or absent.
- A repair of misexpanded packages can leave an item equipped that is no longer owned, exactly when one of the four
  items it takes away is equipped; `InventoryOrder.RepairFails` is such a case.
- The units charged are not always the units added. Of an item of the shared stacks, with `had` units owned and a
  count of n = `field04` + 1 modulo 65536, the stack ends at min(had + n, 65535) and max(n, 1) units are charged:
  the two agree exactly when `field04` is not 65535 and had + n is at most 65535. A wrapped count is charged as one
  unit and adds none, though it makes a stack of 0 if there is none; a full stack takes less than is charged.
  Equipment of a character is added once and charged max(n, 1) times, unless it is owned already and nothing is
  charged. For one input of each kind of stack see `Shop.ChargedForNothing`.

## Model

| member | source | states |
|---|---|---|
| Lzss.RunSettles | src/core/LzssCodec.cpp:10-61 | a decoder that has consumed its input holds back at most one byte, and only the first byte of a token inside a group; output is never taken back |
| Lzss.FeedSplit | src/core/LzssCodec.cpp:5-61 | feeding a then b gives the same output and state as feeding a + b |
| Lzss.FeedAnyChunking | src/core/LzssCodec.cpp:5-61 | any chunking of the input gives the output and state of one piece |
| Lzss.RingRead | src/core/LzssCodec.cpp:38 | reading the ring gives the history byte, or the stale byte one window earlier past its end, or zero before its start |
| Lzss.RingWrite | src/core/LzssCodec.cpp:40-41 | writing at the position keeps the ring equal to the last 4096 bytes modulo position |
| Lzss.BestUpToSpec | src/core/LzssCodec.cpp:63-92 | the match found is the longest of at least four bytes within the distances tried, and the nearest of those |
| Lzss.BestIsLongest | src/core/LzssCodec.cpp:63-92 | over every distance up to the history and 4096 no repetition of four bytes or more is longer than the match found, none as long is nearer, and the match found is a repetition |
| LzssRoundTrip.CallRoundTrip | src/core/LzssCodec.cpp:94-147 | one encode call decodes to its input if and only if it is decodable, and then encoder and decoder are in step at a group boundary |
| LzssRoundTrip.MatchRoundTrip | src/core/LzssCodec.cpp:123-134 | the closing group with a match decodes exactly when the match is faithful or the misread terminator copies the same bytes by coincidence |
| LzssRoundTrip.StreamDecodesExactlyWhen | src/core/LzssCodec.cpp:5-147 | over a sequence of calls, the receiver has exactly what was sent after every call if and only if every call is decodable |
| LzssRoundTrip.StreamInAnyChunking | src/core/LzssCodec.cpp:5-147 | decodable calls arrive as their concatenation however the encoded stream is cut, and the decoder holds nothing back |
| LzssRoundTrip.FarCallDecodes | src/core/LzssCodec.cpp:63-92 | a call whose chosen matches are all at least as far back as long is decodable |
| LzssRoundTrip.ShortLeftoverDecodes | src/core/LzssCodec.cpp:66-69 | a call whose length modulo 8 is below 4 is decodable, with no assumption |
| LzssRoundTrip.RoundTripFails | src/core/LzssCodec.cpp:126 | the call 7, 7, 0, 0, 0 on a fresh pair is not decodable and decodes to something else |
| LzssRoundTrip.CoincidenceHappens | src/core/LzssCodec.cpp:29-32 | for some bytes the encoder chooses a match that is not faithful and the call is decodable all the same |
| LzssCodec.LzssDecoder.Feed | src/core/LzssCodec.cpp:5-61 | the ring decoder outputs and keeps what the decoder over unbounded history does |
| LzssCodec.LzssDecoder.DecodeItem | src/core/LzssCodec.cpp:19-53 | one token or literal advances the ring decoder by one step of the specification |
| LzssCodec.LzssDecoder.CopyMatch | src/core/LzssCodec.cpp:34-43 | copying through the ring, freshly written bytes included, is copying in the history |
| LzssCodec.LzssEncoder.FindBestMatch | src/core/LzssCodec.cpp:63-92 | the ring search finds the best match of the specification |
| LzssCodec.LzssEncoder.Encode | src/core/LzssCodec.cpp:94-147 | the ring encoder outputs the specified encoding and appends the call to its history |
| LzssCodec.LzssEncoder.EncodeGroup | src/core/LzssCodec.cpp:111-143 | the closing group has the flag byte and bodies of the items chosen, ended by the terminator |
| LzssCodec.CodecsInStep | include/cpp_server/core/LzssCodec.h:9-38 | an encoder and a decoder with the same history have equal windows and positions |
| LogicalStream.DrainSettles | src/server/TcpConnectionLoop.cpp:96-101 | what is left after draining holds no complete frame |
| LogicalStream.DrainSerialized | include/cpp_server/core/LogicalPacket.h:17-59 | draining the concatenation of serialised frames gives exactly those frames and nothing left |
| LogicalStream.ReceiveAllDrains | src/server/TcpConnectionLoop.cpp:72-101 | however the bytes arrive, the frames handed on are those of all bytes decoded so far |
| LogicalStream.FramesArrive | src/server/TcpConnectionLoop.cpp:72-101 | serialise, encode, cut anywhere, decode, append and drain gives the frames sent, in order, with an empty buffer |
| LogicalStream.FramesArriveInOrder | src/server/TcpConnectionLoop.cpp:72-101 | at every earlier moment the frames handed on are a prefix of those sent |
| LogicalStream.ShortFramesDecodable | include/cpp_server/core/LogicalPacket.h:17-27 | frames of (payload length + 2) modulo 8 below 4 always arrive |
| LogicalStream.ClientSession.ReceiveChunk | src/server/TcpConnectionLoop.cpp:72-79 | a received chunk moves the connection as the receive specification says |
| LogicalStream.ClientSession.TryPopLogicalPacket | include/cpp_server/core/LogicalPacket.h:42-59 | popping takes exactly the first complete frame off the buffer, or leaves it alone |
| LogicalStream.ClientSession.SendLogicalFrame | include/cpp_server/core/LogicalPacket.h:17-27 | sending encodes a frame of at most 255 payload bytes and refuses a longer one |
| UdpProtocol.HeaderLengthRoundTrip | src/udp/UdpProtocol.cpp:22-39 | the permuted length byte decodes to the length |
| UdpProtocol.EncodableOpcodes | src/udp/UdpProtocol.cpp:28-48 | at every payload length exactly the opcodes below 64 can be encoded |
| UdpProtocol.InnerRoundTrip | src/udp/UdpProtocol.cpp:194-280 | encoding succeeds exactly below opcode 64 and up to 255 bytes, and decodes to the same packet with a good checksum |
| UdpProtocol.StreamRoundTrip | src/udp/UdpProtocol.cpp:282-302 | a concatenation of encoded packets and a strict prefix of another decodes to exactly the complete packets |
| UdpProtocol.InnerDamageDetected | src/udp/UdpProtocol.cpp:252-280 | changing any one byte of an encoded packet but its opcode byte is rejected or flagged |
| UdpProtocol.SealedOk | src/udp/UdpProtocol.cpp:220-250 | every frame built passes the transport check and carries its word and body |
| UdpProtocol.TransportDamageDetected | src/udp/UdpProtocol.cpp:160-173 | changing any one byte of a valid frame of any length fails the transport check |
| UdpProtocol.FindEncodedOpcode | src/udp/UdpProtocol.cpp:41-48 | the search returns the first byte that decodes to the opcode |
| UdpProtocol.EncodeInnerPacket | src/udp/UdpProtocol.cpp:194-218 | the encoding loop produces the specified packet or fails where it does |
| UdpProtocol.DecodeInnerPacket | src/udp/UdpProtocol.cpp:252-280 | the decoding loop returns the specified packet and checksum verdict |
| UdpProtocol.DecodeInnerStream | src/udp/UdpProtocol.cpp:282-302 | the stream loop returns the packets of the specification |
| UdpProtocol.TransportCheckByte | src/udp/UdpProtocol.cpp:160-169 | the alternating sum loop computes the check byte |
| UdpMessages.CombatPayloadsReadBack | src/udp/UdpCombat.cpp:181-259 | the bytes of a stat update and of a hit relation read back as their fields |
| UdpMessages.Utf16TailReadsBack | src/udp/UdpProtocol.cpp:304-317 | a motion written as UTF-16 units with a terminator reads back |
| UdpCombat.HandleIsLawful | src/udp/UdpCombat.cpp:273-553 | one packet keeps life and spirit in bounds and the dead set right, raises no life, changes no maximum, category, player or entity id, and hits only a hostile struck by the player, or an objective or the player struck by a living entity, with damage the target had |
| UdpCombat.HandleTells | src/udp/UdpCombat.cpp:181-197 | what one packet tells a client is exactly what it did to the player and to every entity: last stats, damage and number of hits, also where an entity shares the id of the player |
| UdpCombat.ComboLengthIsCombo | src/udp/UdpCombat.cpp:65-80 | the combo length counts a suffix in which each tick is at least its predecessor and at most 1800 later |
| UdpCombat.ComboLengthIsLongest | src/udp/UdpCombat.cpp:65-80 | no longer suffix is a combo |
| UdpCombat.HandleTracksChains | src/udp/UdpCombat.cpp:65-80 | the stored chain index of every source is its combo length modulo 65536, and hits carry it |
| UdpEffects.StrikeLands | src/udp/UdpCombat.cpp:374-430 | from the words of the packet alone: an action of the player on a living hostile takes six of its lives or those left, gives it four of spirit and the player one up to a hundred, puts it among the dead at six or fewer, changes no chain but the player's, and is accepted |
| UdpEffects.StrikeIsShown | src/udp/UdpCombat.cpp:181-259 | a strike is told by the two new stats and the four packets of its hit, with the words of the action, the chain index, the damage, and the motions of a death exactly when it kills |
| UdpEffects.ActionCounts | src/udp/UdpCombat.cpp:449-514 | any action of a living entity gives it three of spirit up to a hundred, is accepted in its own chain and tells its stat; if it is aimed neither at the living player nor at a living objective it does nothing else |
| UdpEffects.PlayerIsHurt | src/udp/UdpCombat.cpp:465-475 | an action of a living entity on the living player takes five of the player's lives or those left |
| UdpEffects.PlayerHurtIsShown | src/udp/UdpCombat.cpp:475-502 | it is told by the player's new stat and the four packets of the hit, the fall being a motion of its own |
| UdpEffects.ObjectiveIsHurt | src/udp/UdpCombat.cpp:504-525 | an action of a living entity on a living objective, itself included, takes five of its lives or those left, and puts it among the dead at five or fewer |
| UdpEffects.ObjectiveHurtIsShown | src/udp/UdpCombat.cpp:525-552 | it is told by the objective's new stat and the four packets of the hit |
| UdpEffects.ClearClears | src/udp/UdpCombat.cpp:282-325 | a clear request takes all life and spirit of the player or of an entity that has any, puts the entity among the dead and tells the stat |
| UdpEffects.UltimateSpends | src/udp/UdpCombat.cpp:331-355 | an ultimate attack of the player uses up the spirit and tells the stat |
| UdpEffects.OthersDoNothing | src/udp/UdpCombat.cpp:273-514 | a packet of no other kind changes or sends anything |
| UdpEffects.TargetResponds | src/udp/UdpCombat.cpp:119-138 | a target answers a fall with a longer fall, the start of an ultimate with its own damage, a numbered ultimate attack with the damage of that number, and anything else with the same motion |
| UdpEffects.AnswersAreSendable | src/udp/UdpCombat.cpp:199-259 | no answer to a packet of at most 255 bytes of payload is too long to be sent |
| UdpEffects.EveryPacketIsHandled | src/udp/UdpGameServer.cpp:485-494 | every packet of a stream is handled in a move of its own, in its place |
| UdpEffects.PacketIsHandled | src/udp/UdpGameServer.cpp:334-350 | in the middle of any run a packet leaves the state and the accepted actions of its rules, and all its answers go out in their order |
| UdpEffects.StrikeLandsInRun | src/udp/UdpCombat.cpp:374-430 | in the middle of any run a strike takes six lives of its target, or leaves it dead, and is one hit and one accepted action more |
| UdpRuns.RunSequences | src/udp/UdpGameServer.cpp:245-277 | over every run the frames of each channel carry bases 0, 8, 16, ... modulo 65536, and every framed message can be encoded |
| UdpRuns.StepIsMoves | src/udp/UdpGameServer.cpp:462-714 | one turn of the loop is a list of small moves, a world starting at most once and the mission at most once after it |
| UdpRuns.AtMostOneResult | src/udp/UdpGameServer.cpp:353-428 | over every run at most one mission result is queued, and once a mission of a known client runs a fallen player or objective has decided it |
| UdpRuns.SuccessOnlyWhileAlive | src/udp/UdpGameServer.cpp:381-428 | the datagram that queues a success leaves the player and every objective alive |
| UdpSessionRuns.RunJourney | src/udp/UdpGameServer.cpp:503-699 | over every run the reliable session packets are one block 02, 23, 23, 03..., 04 at most, then one 05 at most |
| UdpSessionRuns.StatsPrecedeStart | src/udp/UdpGameServer.cpp:676-699 | the start packet, with the milliseconds since the sync, is sent immediately behind the stats of the player and every entity |
| UdpSessionRuns.ReliableFrameHeader | src/udp/UdpProtocol.cpp:220-229 | the k-th reliable frame on the wire has kind 2 and base 8k modulo 65536 and decodes to its message |
| UdpReading.MessageIsRead | src/udp/UdpGamePackets.cpp:38-168 | every message the server sends is read back, with all its fields, from its opcode and payload |
| UdpReading.FramesAreUnderstood | src/udp/UdpProtocol.cpp:194-250 | over every run a client understands every frame: it passes both checks, has the kind of its channel and, on a numbered one, the base 8k modulo 65536 of its place, and holds the message sent |
| UdpLedger.ClientMirrorsServer | src/udp/UdpGameServer.cpp:316-332 | from the initial stats on, after every single packet of a datagram, a client replaying stat updates holds the life and spirit of the player and every entity; where an entity shares the id of the player, it holds those of one of the two |
| UdpLedger.DamageLedger | src/udp/UdpCombat.cpp:387-542 | after every single packet of a run without clear requests, the life the player or an entity has lost is the sum of the damage of the hits on it; with clear requests it is never less |
| UdpLedger.HostileHitBound | src/udp/UdpCombat.cpp:387-430 | a hostile of life L takes at most ceil(L / 6) hits, and that many kill it; without clear requests its life is always max(0, L - 6 times its hits) |
| UdpLedger.CombatStaysWellFormed | src/udp/UdpGameServer.cpp:625-651 | after every single packet of every run life and spirit are in bounds and the dead set is right |
| UdpLedger.LifeNeverRises | src/udp/UdpCombat.cpp:273-553 | after the sync no packet of a datagram raises a life or changes who takes part |
| UdpTurns.ReliableArrives | src/udp/UdpGameServer.cpp:203-211 | a packet in a reliable frame arrives as itself with a good checksum and the sequence base of the frame |
| UdpTurns.PacketsArrive | src/udp/UdpGameServer.cpp:203-211 | packets in a sequenced frame arrive in their order with its base, those in an unsequenced frame as requests |
| UdpTurns.DamagedIsDropped | src/udp/UdpGameServer.cpp:203-208 | a frame with any one byte changed is dropped |
| UdpTurns.AcknowledgementNames | src/udp/UdpProtocol.cpp:183-192 | an acknowledgement passes the transport check and lists one sequence base, the one received |
| UdpTurns.ProbeIsAnswered | src/udp/UdpProtocol.cpp:175-181 | the answer to a probe passes the transport check and repeats its sequence with kind 6 |
| UdpTurns.BuiltIsDescribed | src/udp/UdpGamePackets.cpp:11-252 | a world can be built exactly when the asset is known and the character id fits a byte; it is the player, the entities of the mission of that scene with their own or numbered category, and ten hostile trainers in the training room or the basilica, for the time of the mission or the room |
| UdpTurns.TableIsAtFullLife | src/udp/UdpGameServer.cpp:637-651 | exactly the objectives and hostiles take part, at 1200 and 400 lives; of several with one id the last one counts |
| UdpTurns.HandshakeStartsWorld | src/udp/UdpGameServer.cpp:503-675 | the first handshake is put on record; if the server synchronises, has a provider and knows a world whose scene fits, the reliable packets it adds are the header announcing min(entities, 255), the two control records, the snapshots of at most 255 bytes in order and the completion, the mission starts now and everybody is at full life; otherwise only the acknowledgement is sent |
| UdpTurns.OthersStartNoWorld | src/udp/UdpGameServer.cpp:502-675 | no other turn sends a packet of a world or changes mission or participants |
| UdpTimes.OverIsElapsed | src/udp/UdpGameServer.cpp:293-302 | the milliseconds told reach the duration exactly when so many nanoseconds have passed since the sync, and the remaining time is the difference |
| UdpTimes.StartsExactlyWhen | src/udp/UdpGameServer.cpp:519-524 | the mission starts with the first client-ready packet after the sync and with nothing else |
| UdpTimes.StartTells | src/udp/UdpGameServer.cpp:676-699 | when it starts, the client is sent the player's stats, those of every entity once and the time since the sync, and nothing else that is reliable |
| UdpTimes.FallDecides | src/udp/UdpGameServer.cpp:381-433 | a combat packet that leaves the player or an objective without life fails an undecided mission of a known client at once, reported after two seconds, and any other decides nothing |
| UdpTimes.TickWhenDue | src/udp/UdpGameServer.cpp:435-460 | a turn sends a tick exactly when one is due, with the time passed and the time left; a mission whose time is over then succeeds, reported after half a second |
| UdpTimes.ArrivalsAreAnswered | src/udp/UdpGameServer.cpp:462-714 | every request is answered once, every stream and every reliable packet, decoded or not, is acknowledged with its sequence base, and a probe by its word |
| UdpTimes.SessionFields | src/udp/UdpGameServer.cpp:495-533 | the session fields after a turn, from the words of the packet |
| UdpMoments.MomentOf | src/udp/UdpGameServer.cpp:245-314 | every frame of a run is put on the record by a move of one of its datagrams, and the record is never rewritten |
| UdpMoments.HitIndexIsComboLength | src/udp/UdpCombat.cpp:65-80 | at the moment any hit relation of any run is sent, its index is modulo 65536 the length of the longest combo that the actions accepted from its source so far end in, its source has just acted, and it strikes whom the rules allow, with damage the target had left |
| UdpMoments.TicksAreApart | src/udp/UdpGameServer.cpp:435-460 | any two game-state ticks of a run are sent by turns whose clock readings are at least three seconds apart, if no reading is zero |
| UdpLedger.OrderedIsValid | src/udp/UdpGameServer.cpp:316-332 | an iteration order as the theorems assume it exists: that of the ids |
| UdpPeer.EncodedMessage | src/udp/UdpGameServer.cpp:245-291 | a message is dropped exactly when its payload is longer than 255 bytes |
| UdpGameServer.PeerState.NextNativeLikeHitIndex | src/udp/UdpCombat.cpp:65-80 | the chain of the source is replaced by the next hit of the specification and its index returned |
| UdpGameServer.PeerState.HandleClientCombatEvent | src/udp/UdpCombat.cpp:273-553 | entities, dead set, player and chains are updated and the packets listed as the combat specification says, whose effects are those of `UdpEffects` |
| UdpGameServer.PeerState.Send | src/udp/UdpGameServer.cpp:245-291 | a message goes out on its channel with its sequence base, and one that cannot be encoded uses up none |
| UdpGameServer.PeerState.QueueMissionResult | src/udp/UdpGameServer.cpp:353-379 | the first result is latched and handed to the callback, later ones are ignored |
| UdpGameServer.PeerState.MaybeQueueTerminalMissionResult | src/udp/UdpGameServer.cpp:381-428 | the terminal check on the fields queues what the specification queues |
| UdpGameServer.PeerState.MaybeSendGameStateTick | src/udp/UdpGameServer.cpp:435-460 | at most one tick in three seconds, then the timer check |
| UdpGameServer.PeerState.AnswerRequests | src/udp/UdpGameServer.cpp:464-484 | every four-byte current-packet request is answered |
| UdpGameServer.PeerState.UpdateSession | src/udp/UdpGameServer.cpp:503-533 | the session fields after a reliable packet and whether sync or start are due |
| UdpGameServer.PeerState.StartWorld | src/udp/UdpGameServer.cpp:573-658 | a sync starts mission and combat over: context, result latch, player and entity table |
| UdpGameServer.PeerState.InitialSync | src/udp/UdpGameServer.cpp:555-675 | the sync sends and starts what the specification says, which is the world of `UdpTurns.HandshakeStartsWorld` |
| UdpGameServer.PeerState.StartElapsed | src/udp/UdpGameServer.cpp:676-699 | initial stats, then the start packet, then ticking |
| UdpGameServer.PeerState.HandleReliable | src/udp/UdpGameServer.cpp:495-699 | a reliable datagram goes through decoding, session, combat, acknowledgement, sync and start in that order |
| UdpGameServer.PeerState.HandleDatagram | src/udp/UdpGameServer.cpp:203-714 | one turn of the loop is one step of the specification, and the socket got the bytes of the frames on record |
| UdpGameServer.ServePeer | src/udp/UdpGameServer.cpp:164-714 | serving a list of datagrams puts the object in the state the run theorems are about |
| JsonText.EscapedReadsBack | src/core/AccountDatabase.cpp:19-58 | parsing an escaped string returns it, whatever its bytes |
| JsonText.PlainTextIsKept | src/core/AccountDatabase.cpp:52-53 | text without quotes, backslashes and control characters is escaped to itself |
| JsonText.DecimalReadsBack | src/core/Json.cpp:251-267 | a printed 32-bit number parses to its value |
| JsonText.PrintedReadsBack | src/core/Json.cpp:87-167 | parsing any printed value gives its content and leaves the text behind it |
| JsonText.DocumentReadsBack | src/core/Json.cpp:298-306 | a printed document with its final newline parses completely |
| JsonReading.EscapesReadBack | src/core/Json.cpp:217-249 | code points written as four hexadecimal digits of either case are read as UTF-8 text that decodes to them |
| JsonReading.SignedReadsBack | src/core/Json.cpp:251-267 | a printed number with its sign is read back if it fits 64 bits and refused otherwise |
| JsonReading.KeywordsReadBack | src/core/Json.cpp:87-117 | true, false and null are read back |
| JsonParsing.JsonParser.ParseString | src/core/Json.cpp:169-215 | the string loop returns what the grammar says and stops behind the quote |
| JsonParsing.JsonParser.UnicodeEscape | src/core/Json.cpp:217-249 | four hexadecimal digits become the one to three UTF-8 bytes of their code point, anything else is an error |
| JsonParsing.JsonParser.ParseInteger | src/core/Json.cpp:251-267 | a run of digits with an optional sign within 64 bits is its value, anything else an error |
| JsonParsing.JsonParser.ParseValue | src/core/Json.cpp:87-117 | the position parser agrees with the grammar on value, error and where it stops |
| JsonParsing.JsonParser.ParseObject | src/core/Json.cpp:119-144 | the member loop agrees with the grammar; the first of equal keys counts |
| JsonParsing.JsonParser.ParseArray | src/core/Json.cpp:146-167 | the element loop agrees with the grammar |
| JsonParsing.ParseJson | src/core/Json.cpp:298-306 | a document is parsed after an optional byte-order mark and must end with it |
| AccountRoundTrip.NamesArePrinted | src/core/AccountDatabase.cpp:420-715 | the fixed name of every member of every record is printed as it is |
| AccountRoundTrip.AccountInfoReadsBack | src/core/AccountDatabase.cpp:190-212 | the account info record is read back from the members printed for it |
| AccountRoundTrip.CharacterEntryReadsBack | src/core/AccountDatabase.cpp:214-229 | a character entry is read back through the preferred names of its aliased fields |
| AccountRoundTrip.ItemEntryReadsBack | src/core/AccountDatabase.cpp:231-248 | an item entry is read back |
| AccountRoundTrip.QuickSlotReadsBack | src/core/AccountDatabase.cpp:250-259 | a quickslot is read back |
| AccountRoundTrip.SkillEntryReadsBack | src/core/AccountDatabase.cpp:261-269 | a skill entry is read back |
| AccountRoundTrip.GuardReadsBack | src/core/AccountDatabase.cpp:271-280 | a guard is read back |
| AccountRoundTrip.ItemStackReadsBack | src/core/AccountDatabase.cpp:282-287 | an item stack is read back, a count of 0 included |
| AccountRoundTrip.OwnedSkillReadsBack | src/core/AccountDatabase.cpp:289-294 | an owned skill is read back |
| AccountRoundTrip.CharacterInventoryReadsBack | src/core/AccountDatabase.cpp:296-320 | a character inventory with its five id lists is read back |
| AccountRoundTrip.InventoryReadsBack | src/core/AccountDatabase.cpp:322-340 | an inventory is read back |
| AccountRoundTrip.ProfileReadsBack | src/core/AccountDatabase.cpp:377-408 | a profile with any of its seven sections present or absent is read back |
| AccountRoundTrip.AccountReadsBack | src/core/AccountDatabase.cpp:1123-1158 | an account is read back with its nickname normalised |
| AccountRoundTrip.LoadedAfterStored | src/core/AccountDatabase.cpp:1104-1204 | loading what any accounts were saved as gives them with normalised nicknames |
| AccountRoundTrip.RoundTripExactlyWhen | src/core/AccountDatabase.cpp:1104-1204 | saving then loading is the identity if and only if every nickname is absent, or not empty and trimmed |
| AccountNames.LoadedAreStorable | src/core/AccountDatabase.cpp:1143-1153 | whatever a file loads as can be saved without loss |
| AccountNames.RunsKeepAccountsStorable | src/core/AccountDatabase.cpp:836-979 | after any operations on a loaded database saving loses nothing, logins, passwords and set nicknames stay, and different logins have different nicknames if they had |
| AccountNames.ResolvedNameIsFinal | src/core/AccountDatabase.cpp:836-874 | a name once resolved answers every later request of the login, whatever happens between |
| AccountNames.TrimIs | src/core/AccountDatabase.cpp:60-68 | trimming takes away all white space at both ends and nothing else |
| AccountNames.ProfileIsSet | src/core/AccountDatabase.cpp:968-979 | the first account of the login has the profile given and is otherwise as before, as are all other accounts |
| AccountNames.NameIsGiven | src/core/AccountDatabase.cpp:836-874 | the answer to a request for a name in every case, and that only the account of the login changes, by exactly that name |
| AccountNames.LastProfileCounts | src/core/AccountDatabase.cpp:836-979 | after any operations every account has the profile set last for its login, if it is the first with that login, and otherwise the one it had |
| AccountNames.NewNamesWereRequested | src/core/AccountDatabase.cpp:836-979 | a nickname that was not there before a run is the trimmed name of a request in it for that login |
| AccountStore.TextStream.Append | src/core/AccountDatabase.cpp:420-715 | the printers append exactly the layout of a record, list, string or number |
| AccountStore.TextStream.EscapeJson | src/core/AccountDatabase.cpp:19-58 | the escaping loop appends the escaped text |
| AccountStore.TextStream.AppendEntries | src/core/AccountDatabase.cpp:717-808 | counting the parts first and writing a comma behind all but the last gives the layout of the present parts |
| AccountStore.TextStream.StoreText | src/core/AccountDatabase.cpp:1161-1204 | the text written for the whole database is the stored layout |
| AccountStore.ParseU32Array | src/core/AccountDatabase.cpp:178-188 | the loop returns all ids or refuses the list for one bad element |
| AccountStore.ParseObjectArray | src/core/AccountDatabase.cpp:343-353 | the loop returns all records or refuses the list for one bad element |
| AccountStore.AccountDatabase.Load | src/core/AccountDatabase.cpp:1104-1159 | loading succeeds exactly when the file is absent or well formed, and then memory is what the file holds |
| AccountStore.AccountDatabase.Store | src/core/AccountDatabase.cpp:1161-1231 | after saving, the file loads as exactly what is in memory |
| AccountStore.AccountDatabase.ResolveCharacterName | src/core/AccountDatabase.cpp:836-874 | result, accounts and file after resolving a name, the file being written only for a new name |
| AccountStore.AccountDatabase.SetPacketProfile | src/core/AccountDatabase.cpp:968-979 | the first account of the login gets the profile and the file follows |
| AccountStore.Perform | src/core/AccountDatabase.cpp:836-979 | after any list of operations the file loads as what is in memory, which is what the run computes |
| Raw1.MaskedIsSelfInverse | tools/unpacker/repack.c:144-154 | the positional cipher undoes itself at every position |
| Raw1.ToolCodecIsValid | tools/unpacker/repack.c:144-154 | the tool's cipher with a compressor that inflate undoes meets all the format assumes |
| Raw1RoundTrip.TableReadsBack | tools/unpacker/repack.c:637-700 | parsing the directory table of any entries gives exactly those entries |
| Raw1RoundTrip.SecondaryNeverLooksPrimary | tools/unpacker/repack.c:593-608 | the reader never takes a secondary header for a primary one |
| Raw1RoundTrip.ArchiveReadsBack | tools/unpacker/repack.c:555-795 | a written archive reads back as its header, mode and entries, unless it is primary with more than a million entries, which is refused |
| Raw1Repack.ContentStays | tools/unpacker/repack.c:463-493 | bytes written later do not change what an entry decodes to |
| Raw1Repack.CopiedCarries | tools/unpacker/repack.c:702-721 | a payload moved and re-keyed decodes to what it held in the template |
| Raw1Repack.CompressedCarries | tools/unpacker/repack.c:1049-1061 | a rebuilt payload decodes to the new content |
| Raw1Repack.UnchangedTemplateCarries | tools/unpacker/repack.c:1083-1096 | if nothing was rebuilt, every file on disk is what the template already holds, so the verbatim copy is right |
| Raw1Repack.RepackedArchive | tools/unpacker/repack.c:899-1148 | in every mode the written archive reads back, with the header of the template and the hash, as the template entries and new paths in order, with every payload decoding to the wanted content; the size of what is new or rebuilt is that of its content, what is kept has the sizes of the template, and entries of unknown kinds stay where they were |
| Raw1Repack.RepacksExactlyWhen | tools/unpacker/repack.c:899-1148 | an archive is written exactly when there is something to do, every kept payload is there, every file to compare can be decoded, no new name is taken, new files exist, and all stays below four gigabytes; it begins with the payloads, or is the template itself if nothing is made anew |
| Raw1Repack.NormalizedIs | tools/unpacker/repack.c:365-385 | a new name is the path without the separators in front, with forward slashes |
| Raw1Packer.XcryptBuffer | tools/unpacker/repack.c:149-154 | the buffer is encrypted in place |
| Raw1Packer.BuildDirectoryTable | tools/unpacker/repack.c:676-700 | the filled buffer is the table of the entries |
| Raw1Packer.ParseDirectory | tools/unpacker/repack.c:637-668 | the parsing loop returns the entries of the table or refuses trailing bytes and unterminated names |
| Raw1Packer.PackWriter.DiskMatchesTemplate | tools/unpacker/repack.c:513-532 | a file counts as unchanged exactly when the entry is of a known kind, the sizes agree and the entry decodes to the file; the test fails exactly for an unknown kind or a payload that does not decode at the same size |
| Raw1Packer.PackWriter.RekeyedOrRawCopy | tools/unpacker/repack.c:702-721 | the copied payload is the template's, re-keyed if compressed, refused if of unknown kind and moved |
| Raw1Packer.PackWriter.PlaceEntry | tools/unpacker/repack.c:1008-1081 | one template entry is placed at the cursor, which stays the number of bytes written; a directory takes no room |
| Raw1Packer.PackWriter.AddFile | tools/unpacker/repack.c:1099-1144 | a new file is compressed behind the rest, unless its name exists or its source is missing |
| Raw1Packer.PackWriter.WriteArchive | tools/unpacker/repack.c:723-795 | header, directory and pointer follow the payloads, or the archive is refused as too large |
| Raw1Packer.Repack | tools/unpacker/repack.c:797-1164 | the tool's output is the one the archive theorems are about, sizes and success included |
| InventoryBuying.PackageIsItsLeaves | src/game/InventoryService.cpp:674-714 | for every acyclic package table, buying a package is buying its flattened leaves max(count, 1) times |
| InventoryBuying.EquipmentPackageIgnoresCount | src/game/InventoryService.cpp:481-507 | if every leaf is equipment of some character, the count does not matter and the shared stacks are untouched |
| InventoryBuying.SameIdsSameTarget | src/game/InventoryService.cpp:509-529 | whose item it is depends on the character ids alone |
| InventoryOrder.AppendAscends | src/game/InventoryService.cpp:481-546 | appending a new key and sorting keeps a list strictly ascending |
| InventoryOrder.BoughtKeeps | src/game/InventoryService.cpp:674-714 | buying keeps every list strictly ascending and every equipped item owned |
| InventoryOrder.CharacterWithoutIs | src/game/InventoryService.cpp:621-652 | removal takes an item from every slot and every list of a character and nothing else |
| InventoryOrder.RemovedKeeps | src/game/InventoryService.cpp:654-666 | removal keeps the lists ascending and equipped items owned |
| InventoryOrder.RepairedAllSorted | src/game/InventoryService.cpp:548-596 | a repair keeps the lists ascending |
| InventoryOrder.RepairedWearsOwnExactlyWhen | src/game/InventoryService.cpp:548-588 | a repair keeps equipped items owned exactly when none of the items it takes away is equipped |
| InventoryOrder.RepairFails | src/game/InventoryService.cpp:548-588 | a character that wears the misexpanded clothes it owns does not own them after the repair |
| InventoryOrder.WithSkillKeeps | src/game/InventoryService.cpp:275-299 | merging a skill keeps the skills strictly ascending |
| InventoryOrder.DressedKeeps | src/game/InventoryService.cpp:353-462 | putting on a bundle that fits, the empty one included, keeps the lists and leaves only owned items equipped |
| InventoryOrder.DressedWears | src/game/InventoryService.cpp:424-452 | a character that puts on a bundle wears what it names slot by slot and owns what it owned |
| InventoryRuns.RunsKeepOrder | src/game/InventoryService.cpp:275-735 | over any list of purchases, expansions, removals, repairs, learnt skills and bundles put on, the lists stay strictly ascending, and equipped items owned if no repair takes away an item that is worn |
| InventoryExpansion.OpenedStacks | src/game/InventoryService.cpp:721-733 | opening a token removes its stack, and the others stay in their places and never shrink, if each leaf has a character or a stack already |
| InventoryExpansion.ExpandedIsDone | src/game/InventoryService.cpp:716-735 | after expansion exactly the non-tokens are left, in order and none smaller, the tokens opened are listed in order, all else is kept, and expanding again does nothing |
| InventoryDelivery.WithStackHolds | src/game/InventoryService.cpp:531-546 | adding units raises the first stack of that item, up to 65535, or makes it, and leaves the stacks of every other item as they are |
| InventoryDelivery.WithoutStackHolds | src/game/InventoryService.cpp:604-619 | removing a unit takes it from the first stack of that item, which goes with its last one, and leaves all other stacks |
| InventoryDelivery.WithSkillHolds | src/game/InventoryService.cpp:275-299 | learning sets the minutes of the first entry of that skill, or makes it, leaves all other skills, and reports a change exactly if there is one |
| InventoryDelivery.RemovedIs | src/game/InventoryService.cpp:654-666 | a removal takes the item out of every slot and list of every character, or one unit of it from the stacks if no character has it, and nothing else |
| InventoryDelivery.BoughtDelivers | src/game/InventoryService.cpp:674-714 | what a purchase brings, item by item: shared stacks grow by the units of their item, equipment is owned by its character, a package is its leaves max(count, 1) times, and all else stays |
| InventoryDelivery.BoughtChangesExactlyWhen | src/game/InventoryService.cpp:674-714 | a purchase reports a change exactly if some leaf of it is kept in the stacks or is equipment not owned yet |
| InventoryDelivery.ExpandedDelivers | src/game/InventoryService.cpp:716-735 | after an expansion the stacks of every other item count min(65535, before + the units of that item in all tokens), a token standing for max(count, 1) times its leaves, every leaf that belongs to a character is owned there, and nothing else has changed |
| InventoryService.StoredInventory.AppendSharedItemStack | src/game/InventoryService.cpp:531-546 | a stack grows up to 65535, or a new one is sorted in |
| InventoryService.StoredInventory.RemoveSharedItemStack | src/game/InventoryService.cpp:604-619 | one unit leaves the stack, and the last one the list |
| InventoryService.StoredInventory.MergeOwnedSkill | src/game/InventoryService.cpp:275-299 | the skill is updated or sorted in, and whether anything changed |
| InventoryService.StoredInventory.AppendOwnedEquipmentItem | src/game/InventoryService.cpp:481-507 | the item is sorted into the list of its slot once |
| InventoryService.StoredInventory.FindCharacterForItem | src/game/InventoryService.cpp:509-529 | the first character whose name has the item's key |
| InventoryService.StoredInventory.RemoveItem | src/game/InventoryService.cpp:654-666 | the item leaves every character, and a shared stack only if no character had it |
| InventoryService.StoredInventory.RepairMisexpandedPackages | src/game/InventoryService.cpp:590-596 | every misexpanded character is repaired, and whether there was one |
| InventoryService.StoredInventory.ApplyBoughtItem | src/game/InventoryService.cpp:674-698 | the recursive purchase in place does what the purchase specification says |
| InventoryService.StoredInventory.ApplyPackageContents | src/game/InventoryService.cpp:700-714 | the nested loops apply the contents max(count, 1) times |
| InventoryService.StoredInventory.ExpandStoredPackageTokens | src/game/InventoryService.cpp:716-735 | the loop that erases while it walks leaves what the expansion specification says, whose contents `InventoryDelivery.ExpandedDelivers` counts |
| InventoryService.FindBundleTarget | src/game/InventoryService.cpp:386-422 | the preferred character if the bundle fits it, otherwise the only one it fits |
| Shop.PaymentIsExact | src/game/InventoryService.cpp:737-778 | a payment lowers exactly one balance by price times max(count, 1), and succeeds exactly when one currency is meant and suffices |
| Shop.UnchangedIsSame | src/game/InventoryService.cpp:674-714 | a purchase that reports no change changes nothing |
| Shop.PurchaseIsExact | src/server/TcpShopHandlers.cpp:52-109 | a purchase is refused for funds exactly if it has an effect and the balance meant does not cover it; an accepted one delivers the item, lowers exactly one balance by the price of max(n, 1) units if it has an effect, is stored exactly if it has one or something was repaired or opened, and changes nothing else of the profile |
| Shop.PurchaseKeepsOrder | src/server/TcpShopHandlers.cpp:52-94 | a purchase keeps the lists ascending, and equipped items owned if the repair that comes first takes away no item that is worn |
| Shop.RequestReadsBack | src/game/InventoryService.cpp:224-229 | a request names item, count from zero and currency in seven bytes, and the count wraps at 65535 |
| Shop.RefusedBeforehandExactlyWhen | src/server/TcpShopHandlers.cpp:13-51 | which of the refusals before the transaction a request gets, if any |
| Shop.ChargedIsAddedExactlyWhen | src/game/InventoryService.cpp:224-229 | for every item that is no package the units charged are the units added if and only if, in a shared stack, the count does not wrap and owned + n fits 16 bits, or, for equipment of a character, it is owned already, has no slot, or the count is at most one |
| Shop.PaidForWhatArrivesExactlyWhen | src/server/TcpShopHandlers.cpp:52-109 | in the accepted profile, for an item that is no package, the balances have fallen by the price of the units that arrived if and only if the count does not wrap and fits, or the equipment was owned, has no slot, or was bought once |
| Shop.StackChargedIsAdded | src/game/InventoryService.cpp:531-546 | the shared stack counts min(owned + n, 65535) afterwards, and exists even if the count has wrapped to zero |
| Shop.EquipmentChargedIsAdded | src/game/InventoryService.cpp:481-507 | equipment with a slot is owned once afterwards, whatever the count |
| Shop.ChargedForNothing | src/server/TcpShopHandlers.cpp:52-109 | a request with middle word 65535 takes the price of one unit, one for ten units of a full stack the price of ten, and neither changes the inventory |
| Shop.ApplyShopPrice | src/game/InventoryService.cpp:737-778 | the choice of currency and the payment |
| Shop.HandleBuyItem | src/server/TcpShopHandlers.cpp:13-142 | the outcome of a request is the specified one, of which `Shop.PurchaseIsExact` says what is delivered and paid; what is refused or has no effect leaves database and file alone, what is stored is the accepted profile |

## Left out

- Sockets, threads, locks, timers and log text; one turn of the loop reads the clock once.
- Other UDP peers: the model follows one peer, and peers share no state it reads.
- `PacketScheduler` and `RoomRegistry`: ordering by real time, and simple bookkeeping.
- Floats, positions and names inside entity snapshots are opaque bytes; a snapshot too long to encode is a dropped send.
- UTF-8 and UTF-16 conversion is assumed total; names and motions enter as units.
- A window position beyond 64 bits, running out of memory, and failing file or socket operations.
- The fixed-layout packets under `packets/`, HTTP helper, injector and the unpack tool: easy or foreign.
- Caching by modification time in the database: reloading an unchanged file is `AccountStore.AccountDatabase.Load`.
- The other setters and finders of the database do what `AccountStore.AccountDatabase.SetPacketProfile` does for one part.
- The seven identical blocks of the profile printer are one loop over the list of parts.
- Command-line parsing, path joining limits and the name hash of the packer; the hash is a parameter.
- The inside of deflate and inflate.
- The order `std::sort` gives to equal keys; the model keeps their order. Lists kept ascending have none.
- InventoryExpansion.ExpandedIsDone: assumes that nothing in the stored packages needs a shared stack that is not there yet; such a stack is inserted into the list the server's loop is walking, whose iterator is then invalid. Contents that land on a stack already there are covered. The same holds for the expansions in `Shop` and in `InventoryRuns`.
- InventoryBuying.PackageIsItsLeaves: assumes an acyclic package table, since the server does not return on a cyclic one.
- UdpLedger.ClientMirrorsServer: where a mission gives an entity the id of the player, the stat updates of the two cannot be told apart, and the client holds those of one of them.
- Quickslot and packet lists built from an inventory, and the search for a single item's slot: they only rearrange fields.
