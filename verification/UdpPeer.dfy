/** One UDP peer of the game server: what a received datagram does to its state, the frames sent back
    and the mission results queued. */
module UdpPeer {
  import opened Bytes
  import opened UdpMessages
  import opened UdpProtocol
  import opened UdpCombat

  const NS_PER_MS := 1_000_000
  const TICK_INTERVAL_NS := 3_000_000_000
  const SUCCESS_DELAY_MS := 500
  const FAILURE_DELAY_MS := 2000
  const DEFAULT_PLAYER: u16 := 0x0040
  const DEFAULT_DURATION_MS: u32 := 0x00dbd63e

  datatype Session = Initial | BootstrapAccepted | InitialSyncSent | ClientReady | ElapsedSent | Started

  /** What the client says of itself. */
  datatype Link = Link(lastClientReliable: u16, session: Session, hasHandshake: bool, token: u32,
                       advertisedIp: u32, advertisedPort: u16)

  /** The sequence bases of the next frames. */
  datatype Counters = Counters(reliable: u16, sequenced: u16)

  /** What the peer plays. Clock readings are nanosecond counts; 0 stands for a time point never set. */
  datatype Assignment = Assignment(clientId: int, rule: u16, scene: utf16, syncSentAt: nat, durationMs: u32)

  datatype Progress = Progress(sentSync: bool, sentElapsed: bool, sentStats: bool, resultSent: bool, lastTickAt: nat)

  /** The fields of a peer, in the groups that change together. */
  datatype Peer = Peer(link: Link, counters: Counters, assignment: Assignment, progress: Progress, combat: Combat)

  const NEW_PEER := Peer(Link(0, Initial, false, 0, 0, 0), Counters(0, 0), Assignment(0, 0, [], 0, 0),
                         Progress(false, false, false, false, 0),
                         Combat(map[], {}, CombatEntity(0, 0, 0, 0), DEFAULT_PLAYER, map[]))

  /** A bare transport frame: the acknowledgement of a sequence base, or the answer to a probe. */
  datatype TransportReply = Acknowledgement(base: u16, kind: byte) | ProbeAnswer(word: u16)

  /** A frame handed to the socket: an inner packet on one of the channels, or a bare transport reply. */
  datatype Sent = Framed(channel: Channel, base: u16, message: Message) | Reply(reply: TransportReply)

  datatype MissionResult = MissionResult(clientId: int, rule: u16, scene: utf16, success: bool, delayMs: nat)

  /** The peer with everything sent and queued for it so far, and the actions that entered hit chains. */
  datatype Server = Server(peer: Peer, sent: seq<Sent>, results: seq<MissionResult>, accepted: seq<Action>)

  const NEW_SERVER := Server(NEW_PEER, [], [], [])

  /** What a combat packet comes to. */
  type Rules = (Combat, DecodedPacket) -> Outcome

  /** order is the iteration order of the entity table, which the hash map leaves open. The session, the mission
      and the channels are written for any rules of combat. */
  datatype Config = Config(gameplaySync: bool, hasProvider: bool, hasCallback: bool,
                           order: map<u16, CombatEntity> -> seq<u16>, rules: Rules)

  /** The server's own configurations: its combat rules are those of UdpCombat. */
  type NativeConfig = cfg: Config | cfg.rules == Handle
    witness Config(false, false, false, (entities: map<u16, CombatEntity>) => [], Handle)

  ghost predicate Enumerates(ids: seq<u16>, keys: set<u16>) {
    (forall id :: id in ids <==> id in keys) && forall i, j :: 0 <= i < j < |ids| ==> ids[i] != ids[j]
  }

  ghost predicate ValidConfig(cfg: Config) {
    forall m: map<u16, CombatEntity> :: Enumerates(cfg.order(m), m.Keys)
  }

  // ---------------------------------------------------------------- the world of an initial sync

  datatype Spawn = Spawn(id: u16, category: byte, snapshot: bytes)

  datatype EntityDefinition = EntityDefinition(id: u16, category: Option<byte>, snapshot: bytes)

  datatype Mission = Mission(scene: utf16, timeLimitSeconds: u32, entities: seq<EntityDefinition>)

  /** What the provider knows about the peer. Snapshots of entities carry positions and names and are
      opaque here; assetKnown is false when the character has no asset key. */
  datatype SyncContext = SyncContext(clientId: int, rule: u16, scene: utf16, limitMinutes: byte, assetKnown: bool,
                                     characterId: u32, playerSnapshot: bytes, mission: Option<Mission>,
                                     trainerSnapshots: seq<bytes>)

  datatype World = World(scene: utf16, rule: u16, durationMs: u32, entities: seq<Spawn>)

  function EntityCategory(id: u16): byte {
    if id < 0x03ec then 1
    else if 0x07d4 <= id <= 0x0fa3 then 2
    else if 0x138c <= id <= 0x1b5b then 3
    else if 0x1f44 <= id < 10000 then 4
    else 0
  }

  function MissionSpawns(definitions: seq<EntityDefinition>): (r: seq<Spawn>)
    ensures |r| == |definitions|
  {
    seq(|definitions|, i requires 0 <= i < |definitions| =>
      var d := definitions[i];
      Spawn(d.id, if d.category.Some? then d.category.value else EntityCategory(d.id), d.snapshot))
  }

  function TrainerSpawns(snapshots: seq<bytes>): seq<Spawn> {
    seq(10, i requires 0 <= i < 10 =>
      var id: u16 := 5068 + i * 8;
      Spawn(id, EntityCategory(id), if i < |snapshots| then snapshots[i] else []))
  }

  /** None stands for the exceptions of a missing asset key and a character id beyond a byte. */
  function BuildWorld(ctx: SyncContext): Option<World> {
    if !ctx.assetKnown || ctx.characterId > 0xFF then None
    else
      var roomMs: u32 := if ctx.limitMinutes != 0 then ctx.limitMinutes as int * 60 * 1000 else DEFAULT_DURATION_MS;
      var mission := if ctx.mission.Some? && ctx.mission.value.scene == ctx.scene then ctx.mission else None;
      var duration: u32 := if mission.Some? && mission.value.timeLimitSeconds != 0
                           then mission.value.timeLimitSeconds as int * 1000 % 0x1_0000_0000 else roomMs;
      var trained := ctx.rule == 3 || ctx.scene == Units("basilica");
      var trainers := if trained then TrainerSpawns(ctx.trainerSnapshots) else [];
      Some(World(ctx.scene, ctx.rule, duration,
                 [Spawn(DEFAULT_PLAYER, 1, ctx.playerSnapshot)] +
                 (if mission.Some? then MissionSpawns(mission.value.entities) else []) + trainers))
  }

  /** The room header refuses scene names whose encoding is longer than 250 bytes. */
  predicate HeaderFits(world: World) { 2 * (|world.scene| + 1) <= 250 }

  function CombatTable(spawns: seq<Spawn>): map<u16, CombatEntity> {
    if spawns == [] then map[]
    else
      var n := |spawns| - 1;
      var m, s := CombatTable(spawns[..n]), spawns[n];
      if s.category == OBJECTIVE then m[s.id := CombatEntity(1200, 1200, 0, OBJECTIVE)]
      else if s.category == HOSTILE then m[s.id := CombatEntity(400, 400, 0, HOSTILE)]
      else m
  }

  // ---------------------------------------------------------------- sending

  /** The encoder refuses payloads longer than 255 bytes. */
  predicate Sendable(m: Message) { PayloadLength(m) <= 0xFF }

  function NextBase(base: u16): u16 { Base((base as int + 8) % 0x1_0000) }

  /** A message that cannot be encoded is dropped and does not use up a sequence number. */
  function Send(s: Server, channel: Channel, m: Message): Server {
    if !Sendable(m) then s
    else
      match channel
      case Reliable =>
        var base := s.peer.counters.reliable;
        s.(sent := s.sent + [Framed(Reliable, base, m)],
           peer := s.peer.(counters := s.peer.counters.(reliable := NextBase(base))))
      case Sequenced =>
        var base := s.peer.counters.sequenced;
        s.(sent := s.sent + [Framed(Sequenced, base, m)],
           peer := s.peer.(counters := s.peer.counters.(sequenced := NextBase(base))))
      case Unsequenced => s.(sent := s.sent + [Framed(Unsequenced, 0, m)])
  }

  function SendReply(s: Server, reply: TransportReply): Server { s.(sent := s.sent + [Reply(reply)]) }

  function SendAll(s: Server, packets: seq<Outgoing>): Server
    decreases packets
  {
    if packets == [] then s else SendAll(Send(s, packets[0].channel, packets[0].message), packets[1..])
  }

  function SendMessages(s: Server, messages: seq<Message>): Server
    decreases messages
  {
    if messages == [] then s else SendMessages(Send(s, Reliable, messages[0]), messages[1..])
  }

  /** The inner packet a message is encoded as. */
  function InnerBytes(m: Message): bytes
    requires Sendable(m)
  {
    PayloadLengthIs(m);
    EncodedBytes(Inner(Opcode(m), Payload(m)))
  }

  function ChannelFrame(channel: Channel, base: u16, inner: bytes): bytes {
    match channel
    case Reliable => ReliableFrame(base, inner)
    case Sequenced => SequencedFrame(base, inner)
    case Unsequenced => UnsequencedFrame(inner)
  }

  function ReplyBytes(reply: TransportReply): bytes {
    match reply
    case Acknowledgement(base, kind) => AckList(base, kind)
    case ProbeAnswer(word) => ProbeReply(word)
  }

  /** The bytes of a frame on the wire. */
  function FrameBytes(f: Sent): bytes {
    match f
    case Reply(reply) => ReplyBytes(reply)
    case Framed(channel, base, m) => if Sendable(m) then ChannelFrame(channel, base, InnerBytes(m)) else []
  }

  /** The encoder's answer for a message decides whether it is sent. */
  lemma EncodedMessage(m: Message)
    ensures EncodeInner(Opcode(m), Payload(m)) == if Sendable(m) then Some(InnerBytes(m)) else None
  {
    PayloadLengthIs(m);
    InnerRoundTrip(Opcode(m), Payload(m));
  }

  // ---------------------------------------------------------------- mission results

  function ElapsedMs(a: Assignment, now: nat): u32 {
    // The steady clock never runs backwards, so now >= syncSentAt whenever it is set.
    if a.syncSentAt == 0 || now < a.syncSentAt then 0 else Min((now - a.syncSentAt) / NS_PER_MS, 0xFFFF_FFFF)
  }

  function QueueResult(s: Server, cfg: Config, success: bool, delayMs: nat): Server {
    if s.peer.progress.resultSent then s
    else
      var latched, a := s.(peer := s.peer.(progress := s.peer.progress.(resultSent := true))), s.peer.assignment;
      if !cfg.hasCallback then latched
      else latched.(results := s.results + [MissionResult(a.clientId, a.rule, a.scene, success, delayMs)])
  }

  predicate MissionActive(a: Assignment) { a.rule != 0 || a.scene != [] }

  predicate PlayerDown(c: Combat) { c.player.maxLife != 0 && c.player.life == 0 }

  predicate IsDown(e: CombatEntity) { e.category == OBJECTIVE && e.maxLife != 0 && e.life == 0 }

  predicate ObjectiveDown(c: Combat) {
    exists id <- c.entities :: IsDown(c.entities[id])
  }

  function CheckTerminal(s: Server, cfg: Config, now: nat, allowTimeSuccess: bool): Server {
    var a, c := s.peer.assignment, s.peer.combat;
    if !cfg.gameplaySync || s.peer.progress.resultSent || !MissionActive(a) || a.clientId <= 0 then s
    else if allowTimeSuccess && a.durationMs != 0 && a.syncSentAt != 0 && ElapsedMs(a, now) >= a.durationMs then
      QueueResult(s, cfg, true, SUCCESS_DELAY_MS)
    else if PlayerDown(c) || ObjectiveDown(c) then QueueResult(s, cfg, false, FAILURE_DELAY_MS)
    else s
  }

  // ---------------------------------------------------------------- the phases of one datagram

  function HandlePacket(s: Server, cfg: Config, packet: DecodedPacket, now: nat): Server {
    var handled :=
      if !cfg.gameplaySync then s
      else
        var outcome := cfg.rules(s.peer.combat, packet);
        var fought := s.(peer := s.peer.(combat := outcome.combat), accepted := s.accepted + outcome.accepted);
        SendAll(fought, outcome.packets);
    CheckTerminal(handled, cfg, now, false)
  }

  function HandlePackets(s: Server, cfg: Config, packets: seq<DecodedPacket>, now: nat): Server
    decreases packets
  {
    if packets == [] then s else HandlePackets(HandlePacket(s, cfg, packets[0], now), cfg, packets[1..], now)
  }

  function AnswerRequests(s: Server, packets: seq<DecodedPacket>): Server
    decreases packets
  {
    if packets == [] then s
    else
      var wanted := packets[0].opcode == 0x02 && |packets[0].payload| == 4;
      AnswerRequests(if wanted then Send(s, Unsequenced, CurrentPacket(0)) else s, packets[1..])
  }

  function WorldMessages(world: World): seq<Message> {
    var header := RoomHeader(Min(|world.entities|, 0xFF), world.rule, world.scene);
    var snapshots := seq(|world.entities|, i requires 0 <= i < |world.entities| =>
      EntitySnapshot(world.entities[i].snapshot));
    [header, ControlRecord(DEFAULT_PLAYER, 1, 1), ControlRecord(DEFAULT_PLAYER, 2, 1)] + snapshots + [SyncComplete]
  }

  /** Combat starts over: the first spawn is the player, and mission entities are at full life. */
  function StartingCombat(spawns: seq<Spawn>): Combat {
    var playerId := if spawns == [] then DEFAULT_PLAYER else spawns[0].id;
    Combat(CombatTable(spawns), {}, CombatEntity(600, 600, 0, 1), playerId, map[])
  }

  function StartWorld(p: Peer, ctx: SyncContext, world: World, now: nat): Peer {
    p.(assignment := Assignment(ctx.clientId, world.rule, world.scene, now, world.durationMs),
       progress := p.progress.(resultSent := false, sentStats := false),
       combat := StartingCombat(world.entities))
  }

  function FinishSync(p: Peer): Peer {
    var session := if p.link.session == BootstrapAccepted then InitialSyncSent else p.link.session;
    p.(link := p.link.(session := session), progress := p.progress.(sentSync := true))
  }

  /** The initial sync; a world that cannot be built sends nothing, but the attempt is not repeated. */
  function InitialSync(s: Server, cfg: Config, ctx: Option<SyncContext>, now: nat): Server {
    var world := if ctx.Some? then BuildWorld(ctx.value) else None;
    var synced :=
      if !cfg.gameplaySync || !cfg.hasProvider || world == None || !HeaderFits(world.value) then s
      else SendMessages(s.(peer := StartWorld(s.peer, ctx.value, world.value, now)), WorldMessages(world.value));
    synced.(peer := FinishSync(synced.peer))
  }

  function StatMessages(c: Combat, ids: seq<u16>): (r: seq<Message>)
    ensures |r| <= |ids| && forall m <- r :: m.StatUpdate?
  {
    if ids == [] then []
    else if ids[0] in c.entities then [Stat(ids[0], c.entities[ids[0]]).message] + StatMessages(c, ids[1..])
    else StatMessages(c, ids[1..])
  }

  function StatsBlock(c: Combat, cfg: Config): (r: seq<Message>)
    ensures forall m <- r :: m.StatUpdate?
  {
    [Stat(c.playerId, c.player).message] + StatMessages(c, cfg.order(c.entities))
  }

  function SendStats(s: Server, cfg: Config): Server {
    if s.peer.progress.sentStats then s
    else
      var t := SendMessages(s, StatsBlock(s.peer.combat, cfg));
      t.(peer := t.peer.(progress := t.peer.progress.(sentStats := true)))
  }

  function StartElapsedPhase(s: Server, cfg: Config, now: nat): Server {
    var t := Send(SendStats(s, cfg), Reliable, StartElapsed(ElapsedMs(s.peer.assignment, now)));
    t.(peer := FinishStart(t.peer))
  }

  function FinishStart(p: Peer): Peer {
    p.(link := p.link.(session := ElapsedSent), progress := p.progress.(sentElapsed := true, lastTickAt := 0))
  }

  function RemainingMs(a: Assignment, now: nat): u32 {
    if a.durationMs > ElapsedMs(a, now) then a.durationMs - ElapsedMs(a, now) else 0
  }

  function SendTick(s: Server, now: nat): Server {
    var a := s.peer.assignment;
    var t := Send(s, Unsequenced, GameStateTick(ElapsedMs(a, now), RemainingMs(a, now)));
    t.(peer := t.peer.(progress := t.peer.progress.(lastTickAt := now)))
  }

  /** The game-state tick due at the end of every turn, at most one in three seconds. */
  function Tick(s: Server, cfg: Config, now: nat): Server {
    var p, a := s.peer.progress, s.peer.assignment;
    if !cfg.gameplaySync || !p.sentElapsed || p.resultSent then s
    else if p.lastTickAt != 0 && now - p.lastTickAt < TICK_INTERVAL_NS then s
    else CheckTerminal(SendTick(s, now), cfg, now, TimeIsUp(a, now))
  }

  predicate TimeIsUp(a: Assignment, now: nat) { RemainingMs(a, now) == 0 && ElapsedMs(a, now) >= a.durationMs }

  /** What a datagram says once it is decoded: requests, sequenced packets, one reliable packet, or a probe. One
      that fails the transport check is dropped. */
  datatype Arrival =
    | Requests(requests: seq<DecodedPacket>)
    | Stream(streamBase: u16, packets: seq<DecodedPacket>)
    | Single(base: u16, decoded: Option<DecodedPacket>)
    | Probe(word: u16)
    | Unknown
    | Dropped

  function Arrived(data: bytes): Arrival {
    if !TransportOk(data) then Dropped
    else
      var word, body := WordAt(data, 0), data[3..];
      match word % 8
      case 0 => Requests(DecodeStream(body))
      case 1 => Stream(Base(word), DecodeStream(body))
      case 2 => Single(Base(word), DecodeInner(body))
      case 3 => Probe(word)
      case _ => Unknown
  }

  /** A received datagram, the clock reading of the turn that handles it, and what the provider would
      answer if it were asked. */
  datatype Datagram = Datagram(arrival: Arrival, now: nat, context: Option<SyncContext>)

  datatype SessionUpdate = SessionUpdate(link: Link, wantsSync: bool, wantsStart: bool)

  /** The link fields a well-formed reliable packet updates, and what it makes due. */
  function UpdateSession(p: Peer, cfg: Config, packet: DecodedPacket): SessionUpdate {
    var payload := packet.payload;
    if packet.opcode == 0x00 && |payload| == 10 then
      SessionUpdate(Link(p.link.lastClientReliable, BootstrapAccepted, true, DoubleWordAt(payload, 0),
                         DoubleWordAt(payload, 4), WordAt(payload, 8)), !p.progress.sentSync, false)
    else if packet.opcode == 0x01 && payload == [] then
      SessionUpdate(p.link.(session := ClientReady), false,
                    cfg.gameplaySync && p.progress.sentSync && !p.progress.sentElapsed)
    else if packet.opcode == 0x0a then SessionUpdate(p.link.(session := Started), false, false)
    else SessionUpdate(p.link, false, false)
  }

  /** The stages a reliable datagram goes through, in order. packet is the inner packet if it decoded with
      a good checksum; others are acknowledged and otherwise ignored. */
  datatype ReliableStages = ReliableStages(packet: Option<DecodedPacket>, updated: Server, handled: Server,
                                           acked: Server, wantsSync: bool, synced: Server, wantsStart: bool)

  function ReliablePhases(s: Server, cfg: Config, d: Datagram): ReliableStages
    requires d.arrival.Single?
  {
    var decoded, base := d.arrival.decoded, d.arrival.base;
    var packet := if decoded.Some? && decoded.value.checksumOk then decoded else None;
    var received := if decoded.Some? then s.peer.(link := s.peer.link.(lastClientReliable := base)) else s.peer;
    var update :=
      if packet.Some? then UpdateSession(received, cfg, packet.value) else SessionUpdate(received.link, false, false);
    var updated := s.(peer := s.peer.(link := update.link));
    var handled := if packet.Some? then HandlePacket(updated, cfg, packet.value, d.now) else updated;
    var acked := SendReply(handled, Acknowledgement(base, 5));
    var synced := if update.wantsSync then InitialSync(acked, cfg, d.context, d.now) else acked;
    ReliableStages(packet, updated, handled, acked, update.wantsSync, synced, update.wantsStart)
  }

  function ReliablePhase(s: Server, cfg: Config, d: Datagram): Server
    requires d.arrival.Single?
  {
    var stages := ReliablePhases(s, cfg, d);
    if stages.wantsStart then StartElapsedPhase(stages.synced, cfg, d.now) else stages.synced
  }

  function Served(s: Server, cfg: Config, d: Datagram): Server {
    match d.arrival
    case Requests(packets) => if cfg.gameplaySync then AnswerRequests(s, packets) else s
    case Stream(base, packets) => SendReply(HandlePackets(s, cfg, packets, d.now), Acknowledgement(base, 4))
    case Single(_, _) => ReliablePhase(s, cfg, d)
    case Probe(word) => SendReply(s, ProbeAnswer(word))
    case _ => s
  }

  function Step(s: Server, cfg: Config, d: Datagram): Server {
    if d.arrival == Dropped then s else Tick(Served(s, cfg, d), cfg, d.now)
  }

  function Run(cfg: Config, datagrams: seq<Datagram>): Server {
    if datagrams == [] then NEW_SERVER
    else Step(Run(cfg, datagrams[..|datagrams| - 1]), cfg, datagrams[|datagrams| - 1])
  }
}
