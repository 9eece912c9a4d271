/** The peer object of the game server: fields updated in place, datagram by datagram. Every method is
    proved to do what the corresponding function of UdpPeer or UdpCombat says. */
module UdpGameServer {
  import opened Bytes
  import opened UdpMessages
  import opened UdpProtocol
  import opened UdpCombat
  import UdpPeer

  type Config = UdpPeer.NativeConfig

  ghost predicate OnRecord(wire: seq<bytes>, sent: seq<UdpPeer.Sent>) {
    |wire| == |sent| && forall i :: 0 <= i < |sent| ==> wire[i] == UdpPeer.FrameBytes(sent[i])
  }

  function UpdatedWith(s: UdpPeer.Server, link: UdpPeer.Link): UdpPeer.Server { s.(peer := s.peer.(link := link)) }

  class PeerState {
    /** The fields of the peer, in the groups of UdpPeer.Peer. */
    var link: UdpPeer.Link
    var counters: UdpPeer.Counters
    var assignment: UdpPeer.Assignment
    var progress: UdpPeer.Progress
    var combat: Combat
    /** What went to the socket and to the mission-result callback. */
    var wire: seq<bytes>
    var results: seq<UdpPeer.MissionResult>
    ghost var sent: seq<UdpPeer.Sent>
    ghost var accepted: seq<Action>

    /** The socket got the bytes of exactly the frames on record. */
    ghost predicate Valid()
      reads this`wire, this`sent
    {
      OnRecord(wire, sent)
    }

    ghost function Server(): UdpPeer.Server
      reads this
    {
      UdpPeer.Server(UdpPeer.Peer(link, counters, assignment, progress, combat), sent, results, accepted)
    }

    constructor ()
      ensures Valid() && Server() == UdpPeer.NEW_SERVER
    {
      link, counters := UdpPeer.Link(0, UdpPeer.Initial, false, 0, 0, 0), UdpPeer.Counters(0, 0);
      assignment := UdpPeer.Assignment(0, 0, [], 0, 0);
      progress := UdpPeer.Progress(false, false, false, false, 0);
      combat := Combat(map[], {}, CombatEntity(0, 0, 0, 0), UdpPeer.DEFAULT_PLAYER, map[]);
      wire, results, sent, accepted := [], [], [], [];
    }

    // -------------------------------------------------------------- combat events

    method NextNativeLikeHitIndex(source: u16, target: u16, tick: u32) returns (index: u16)
      modifies this`combat, this`accepted
      ensures combat == old(combat).(chains := combat.chains)
      ensures combat.chains == old(combat).chains[source := NextHit(ChainOf(old(combat), source), source, target, tick)]
      ensures index == combat.chains[source].index && accepted == old(accepted) + [Action(source, tick)]
    {
      var chain := if source in combat.chains then combat.chains[source] else NO_CHAIN;
      var delta := if tick >= chain.tick then tick - chain.tick else 0;
      var reset := !chain.active || tick < chain.tick || delta > COMBO_RESET_TICKS;
      index := if reset then 1 else (chain.index as int + 1) % 0x1_0000;
      combat := combat.(chains := combat.chains[source := HitChain(source, target, tick, index, true)]);
      accepted := accepted + [Action(source, tick)];
    }

    /** The combat state follows an outcome, and the packets are its packets. */
    twostate predicate Follows(o: Outcome, packets: seq<Outgoing>)
      reads this
    {
      combat == o.combat && packets == o.packets && accepted == old(accepted) + o.accepted
    }

    method HandleClientCombatEvent(packet: DecodedPacket) returns (packets: seq<Outgoing>)
      modifies this`combat, this`accepted
      ensures Follows(Handle(old(combat), packet), packets)
    {
      var payload := packet.payload;
      assert accepted + [] == accepted;
      if packet.opcode == 0x07 && |payload| >= 2 {
        packets := ClearLifeAndSpirit(WordAt(payload, 0));
        return;
      }
      if |payload| < 4 {
        return [];
      }
      if packet.opcode == 0x3c {
        if WordAt(payload, 2) != combat.playerId {
          return [];
        }
        combat := combat.(player := combat.player.(spirit := 0));
        return [Stat(combat.playerId, combat.player)];
      }
      if packet.opcode != 0x03 || |payload| < 24 {
        return [];
      }
      var source, target := WordAt(payload, 0), WordAt(payload, 2);
      if target == NO_TARGET {
        return [];
      }
      var fields, motion := ExtractFields(payload), Utf16Tail(payload, 24);
      if motion == [] {
        return [];
      }
      if source == combat.playerId {
        packets := HandlePlayerAttack(target, fields, motion);
      } else {
        packets := HandleNpcAttack(source, target, fields, motion);
      }
    }

    method ClearLifeAndSpirit(id: u16) returns (packets: seq<Outgoing>)
      modifies this`combat
      ensures Follows(ClearLife(old(combat), id), packets)
    {
      assert accepted + [] == accepted;
      if id == combat.playerId {
        if combat.player.life == 0 && combat.player.spirit == 0 {
          return [];
        }
        combat := combat.(player := combat.player.(life := 0, spirit := 0));
        return [Stat(id, combat.player)];
      }
      if id !in combat.entities || (combat.entities[id].life == 0 && combat.entities[id].spirit == 0) {
        return [];
      }
      var e := combat.entities[id].(life := 0, spirit := 0);
      combat := combat.(entities := combat.entities[id := e], dead := combat.dead + {id});
      packets := [Stat(id, e)];
    }

    /** Stores an entity that has been hit; without life it is dead. */
    method StoreHit(target: u16, e: CombatEntity)
      modifies this`combat
      ensures combat == old(combat).(entities := old(combat).entities[target := e],
                                     dead := if e.life == 0 then old(combat).dead + {target} else old(combat).dead)
    {
      combat := combat.(entities := combat.entities[target := e]);
      if e.life == 0 {
        combat := combat.(dead := combat.dead + {target});
      }
    }

    method HandlePlayerAttack(target: u16, fields: ActionFields, motion: utf16) returns (packets: seq<Outgoing>)
      modifies this`combat, this`accepted
      ensures Follows(PlayerAttack(old(combat), target, fields, motion), packets)
    {
      if target !in combat.entities || combat.entities[target].life == 0 ||
         combat.entities[target].category != HOSTILE {
        assert accepted + [] == accepted;
        return [];
      }
      var hitIndex := NextNativeLikeHitIndex(combat.playerId, target, fields.tick);
      var e := combat.entities[target];
      var damage := Min(e.life, PLAYER_DAMAGE);
      e := e.(life := e.life - damage, spirit := AddClamped(e.spirit, TargetSpiritGain(damage), MAX_SPIRIT));
      StoreHit(target, e);
      var player := combat.player.(spirit := AddClamped(combat.player.spirit, PLAYER_SPIRIT_GAIN, MAX_SPIRIT));
      combat := combat.(player := player);
      packets := [Stat(target, e), Stat(combat.playerId, player)] +
                 HitPackets(combat.playerId, target, hitIndex, damage, e.life == 0, motion, MONSTER_HIT, fields);
    }

    method HandleNpcAttack(source: u16, target: u16, fields: ActionFields, motion: utf16)
      returns (packets: seq<Outgoing>)
      modifies this`combat, this`accepted
      ensures Follows(NpcAttack(old(combat), source, target, fields, motion), packets)
    {
      if source !in combat.entities || combat.entities[source].life == 0 {
        assert accepted + [] == accepted;
        return [];
      }
      var actor := combat.entities[source];
      actor := actor.(spirit := AddClamped(actor.spirit, NPC_SPIRIT_GAIN, MAX_SPIRIT));
      combat := combat.(entities := combat.entities[source := actor]);
      packets := [Stat(source, actor)];
      var hitIndex := NextNativeLikeHitIndex(source, target, fields.tick);
      assert combat == NpcActs(old(combat), source, target, fields.tick);
      assert packets + [] == packets;

      if target == combat.playerId {
        if combat.player.life == 0 {
          return;
        }
        var damage := Min(combat.player.life, NPC_DAMAGE);
        combat := combat.(player := combat.player.(life := combat.player.life - damage));
        packets := packets + ([Stat(target, combat.player)] +
                   HitPackets(source, target, hitIndex, damage, combat.player.life == 0, motion, PLAYER_HIT, fields));
        return;
      }
      if target !in combat.entities || combat.entities[target].life == 0 ||
         combat.entities[target].category != OBJECTIVE {
        return;
      }
      var e := combat.entities[target];
      var damage := Min(e.life, NPC_DAMAGE);
      e := e.(life := e.life - damage);
      StoreHit(target, e);
      packets := packets + ([Stat(target, e)] +
                 HitPackets(source, target, hitIndex, damage, e.life == 0, motion, OBJECTIVE_HIT, fields));
    }

    // -------------------------------------------------------------- sending

    method SendFrame(frame: bytes, ghost record: UdpPeer.Sent)
      requires Valid() && frame == UdpPeer.FrameBytes(record)
      modifies this`wire, this`sent
      ensures Valid() && sent == old(sent) + [record]
    {
      wire := wire + [frame];
      sent := sent + [record];
    }

    method SendReply(reply: UdpPeer.TransportReply)
      requires Valid()
      modifies this`wire, this`sent
      ensures Valid() && Server() == UdpPeer.SendReply(old(Server()), reply)
    {
      SendFrame(UdpPeer.ReplyBytes(reply), UdpPeer.Reply(reply));
    }

    /** Encodes and frames a message for its channel; an encoding failure drops it. */
    method Send(channel: Channel, m: Message)
      requires Valid()
      modifies this`wire, this`sent, this`counters
      ensures Valid() && Server() == UdpPeer.Send(old(Server()), channel, m)
    {
      match channel {
        case Reliable => SendReliable(m);
        case Sequenced => SendSequenced(m);
        case Unsequenced =>
          var ok := SendEncoded(Unsequenced, 0, m);
      }
    }

    method SendReliable(m: Message)
      requires Valid()
      modifies this`wire, this`sent, this`counters
      ensures Valid() && Server() == UdpPeer.Send(old(Server()), Reliable, m)
    {
      var ok := SendEncoded(Reliable, counters.reliable, m);
      if ok {
        counters := counters.(reliable := UdpPeer.NextBase(counters.reliable));
      }
    }

    method SendSequenced(m: Message)
      requires Valid()
      modifies this`wire, this`sent, this`counters
      ensures Valid() && Server() == UdpPeer.Send(old(Server()), Sequenced, m)
    {
      var ok := SendEncoded(Sequenced, counters.sequenced, m);
      if ok {
        counters := counters.(sequenced := UdpPeer.NextBase(counters.sequenced));
      }
    }

    method SendEncoded(channel: Channel, base: u16, m: Message) returns (ok: bool)
      requires Valid()
      modifies this`wire, this`sent
      ensures Valid() && ok == UdpPeer.Sendable(m)
      ensures sent == if ok then old(sent) + [UdpPeer.Framed(channel, base, m)] else old(sent)
    {
      var inner := EncodeInnerPacket(Opcode(m), Payload(m));
      UdpPeer.EncodedMessage(m);
      ok := inner.Some?;
      if ok {
        SendFrame(UdpPeer.ChannelFrame(channel, base, inner.value), UdpPeer.Framed(channel, base, m));
      }
    }

    method SendMessages(messages: seq<Message>)
      requires Valid()
      modifies this`wire, this`sent, this`counters
      ensures Valid() && Server() == UdpPeer.SendMessages(old(Server()), messages)
    {
      for i := 0 to |messages|
        invariant Valid()
        invariant UdpPeer.SendMessages(Server(), messages[i..]) == UdpPeer.SendMessages(old(Server()), messages)
      {
        assert messages[i..][1..] == messages[i + 1..];
        Send(Reliable, messages[i]);
      }
    }

    method SendCombatResult(packets: seq<Outgoing>)
      requires Valid()
      modifies this`wire, this`sent, this`counters
      ensures Valid() && Server() == UdpPeer.SendAll(old(Server()), packets)
    {
      for i := 0 to |packets|
        invariant Valid()
        invariant UdpPeer.SendAll(Server(), packets[i..]) == UdpPeer.SendAll(old(Server()), packets)
      {
        assert packets[i..][1..] == packets[i + 1..];
        Send(packets[i].channel, packets[i].message);
      }
    }

    // -------------------------------------------------------------- mission results

    method GameElapsedMs(now: nat) returns (ms: u32)
      ensures ms == UdpPeer.ElapsedMs(assignment, now)
    {
      if assignment.syncSentAt == 0 || now < assignment.syncSentAt {
        return 0;
      }
      ms := Min((now - assignment.syncSentAt) / UdpPeer.NS_PER_MS, 0xFFFF_FFFF);
    }

    method QueueMissionResult(cfg: Config, success: bool, delayMs: nat)
      modifies this`progress, this`results
      ensures Server() == UdpPeer.QueueResult(old(Server()), cfg, success, delayMs)
    {
      if progress.resultSent {
        return;
      }
      progress := progress.(resultSent := true);
      if !cfg.hasCallback {
        return;
      }
      results := results +
                 [UdpPeer.MissionResult(assignment.clientId, assignment.rule, assignment.scene, success, delayMs)];
    }

    method AnyObjectiveDown() returns (down: bool)
      ensures down <==> UdpPeer.ObjectiveDown(combat)
    {
      var ids := combat.entities.Keys;
      down := false;
      while ids != {}
        invariant ids <= combat.entities.Keys
        invariant forall id <- combat.entities.Keys - ids :: !UdpPeer.IsDown(combat.entities[id])
        decreases |ids|
      {
        var id :| id in ids;
        var e := combat.entities[id];
        if e.category == OBJECTIVE && e.maxLife != 0 && e.life == 0 {
          return true;
        }
        ids := ids - {id};
      }
    }

    method MaybeQueueTerminalMissionResult(cfg: Config, now: nat, allowTimeSuccess: bool)
      modifies this`progress, this`results
      ensures Server() == UdpPeer.CheckTerminal(old(Server()), cfg, now, allowTimeSuccess)
    {
      if !cfg.gameplaySync || progress.resultSent || (assignment.rule == 0 && assignment.scene == []) {
        return;
      }
      if assignment.clientId <= 0 {
        return;
      }
      if allowTimeSuccess && assignment.durationMs != 0 && assignment.syncSentAt != 0 {
        var elapsed := GameElapsedMs(now);
        if elapsed >= assignment.durationMs {
          QueueMissionResult(cfg, true, UdpPeer.SUCCESS_DELAY_MS);
          return;
        }
      }
      if combat.player.maxLife != 0 && combat.player.life == 0 {
        QueueMissionResult(cfg, false, UdpPeer.FAILURE_DELAY_MS);
        return;
      }
      var down := AnyObjectiveDown();
      if down {
        QueueMissionResult(cfg, false, UdpPeer.FAILURE_DELAY_MS);
      }
    }

    // -------------------------------------------------------------- one datagram

    method HandlePacket(cfg: Config, packet: DecodedPacket, now: nat)
      requires Valid()
      modifies this
      ensures Valid() && Server() == UdpPeer.HandlePacket(old(Server()), cfg, packet, now)
    {
      if cfg.gameplaySync {
        var packets := HandleClientCombatEvent(packet);
        SendCombatResult(packets);
      }
      MaybeQueueTerminalMissionResult(cfg, now, false);
    }

    method HandlePackets(cfg: Config, packets: seq<DecodedPacket>, now: nat)
      requires Valid()
      modifies this
      ensures Valid() && Server() == UdpPeer.HandlePackets(old(Server()), cfg, packets, now)
    {
      for i := 0 to |packets|
        invariant Valid()
        invariant UdpPeer.HandlePackets(Server(), cfg, packets[i..], now) ==
                  UdpPeer.HandlePackets(old(Server()), cfg, packets, now)
      {
        assert packets[i..][1..] == packets[i + 1..];
        HandlePacket(cfg, packets[i], now);
      }
    }

    method AnswerRequests(packets: seq<DecodedPacket>)
      requires Valid()
      modifies this
      ensures Valid() && Server() == UdpPeer.AnswerRequests(old(Server()), packets)
    {
      for i := 0 to |packets|
        invariant Valid()
        invariant UdpPeer.AnswerRequests(Server(), packets[i..]) == UdpPeer.AnswerRequests(old(Server()), packets)
      {
        assert packets[i..][1..] == packets[i + 1..];
        if packets[i].opcode == 0x02 && |packets[i].payload| == 4 {
          Send(Unsequenced, CurrentPacket(0));
        }
      }
    }

    method InitialSync(cfg: Config, ctx: Option<UdpPeer.SyncContext>, now: nat)
      requires Valid()
      modifies this
      ensures Valid() && Server() == UdpPeer.InitialSync(old(Server()), cfg, ctx, now)
    {
      if cfg.gameplaySync && cfg.hasProvider && ctx.Some? {
        var world := UdpPeer.BuildWorld(ctx.value);
        if world.Some? && UdpPeer.HeaderFits(world.value) {
          StartWorld(ctx.value, world.value, now);
          SendMessages(UdpPeer.WorldMessages(world.value));
        }
      }
      progress := progress.(sentSync := true);
      if link.session == UdpPeer.BootstrapAccepted {
        link := link.(session := UdpPeer.InitialSyncSent);
      }
    }

    method StartWorld(ctx: UdpPeer.SyncContext, world: UdpPeer.World, now: nat)
      modifies this`assignment, this`progress, this`combat
      ensures Server() == old(Server()).(peer := UdpPeer.StartWorld(old(Server()).peer, ctx, world, now))
    {
      assignment := UdpPeer.Assignment(ctx.clientId, world.rule, world.scene, now, world.durationMs);
      progress := progress.(resultSent := false, sentStats := false);
      var table := BuildCombatTable(world.entities);
      var playerId := if world.entities == [] then UdpPeer.DEFAULT_PLAYER else world.entities[0].id;
      combat := Combat(table, {}, CombatEntity(600, 600, 0, 1), playerId, map[]);
    }

    method BuildCombatTable(spawns: seq<UdpPeer.Spawn>) returns (entities: map<u16, CombatEntity>)
      ensures entities == UdpPeer.CombatTable(spawns)
    {
      entities := map[];
      for i := 0 to |spawns|
        invariant entities == UdpPeer.CombatTable(spawns[..i])
      {
        var spawn := spawns[i];
        assert spawns[..i + 1][..i] == spawns[..i];
        if spawn.category == OBJECTIVE {
          entities := entities[spawn.id := CombatEntity(1200, 1200, 0, OBJECTIVE)];
        } else if spawn.category == HOSTILE {
          entities := entities[spawn.id := CombatEntity(400, 400, 0, HOSTILE)];
        }
      }
      assert spawns[..|spawns|] == spawns;
    }

    method SendInitialCombatStats(cfg: Config)
      requires Valid()
      modifies this
      ensures Valid() && Server() == UdpPeer.SendStats(old(Server()), cfg)
    {
      if progress.sentStats {
        return;
      }
      SendMessages(UdpPeer.StatsBlock(combat, cfg));
      progress := progress.(sentStats := true);
    }

    method StartElapsed(cfg: Config, now: nat)
      requires Valid()
      modifies this
      ensures Valid() && Server() == UdpPeer.StartElapsedPhase(old(Server()), cfg, now)
    {
      var elapsed := GameElapsedMs(now);
      SendInitialCombatStats(cfg);
      Send(Reliable, UdpMessages.StartElapsed(elapsed));
      link := link.(session := UdpPeer.ElapsedSent);
      progress := progress.(sentElapsed := true, lastTickAt := 0);
    }

    method MaybeSendGameStateTick(cfg: Config, now: nat)
      requires Valid()
      modifies this
      ensures Valid() && Server() == UdpPeer.Tick(old(Server()), cfg, now)
    {
      if !cfg.gameplaySync || !progress.sentElapsed || progress.resultSent {
        return;
      }
      if progress.lastTickAt != 0 && now - progress.lastTickAt < UdpPeer.TICK_INTERVAL_NS {
        return;
      }
      var elapsed := GameElapsedMs(now);
      var remaining: u32 := if assignment.durationMs > elapsed then assignment.durationMs - elapsed else 0;
      SendTick(elapsed, remaining, now);
      MaybeQueueTerminalMissionResult(cfg, now, remaining == 0 && elapsed >= assignment.durationMs);
    }

    method SendTick(elapsed: u32, remaining: u32, now: nat)
      requires Valid() && elapsed == UdpPeer.ElapsedMs(assignment, now) &&
               remaining == UdpPeer.RemainingMs(assignment, now)
      modifies this`wire, this`sent, this`counters, this`progress
      ensures Valid() && Server() == UdpPeer.SendTick(old(Server()), now)
    {
      Send(Unsequenced, GameStateTick(elapsed, remaining));
      progress := progress.(lastTickAt := now);
    }

    /** The link fields; whether the initial sync and the start packet are due. */
    method UpdateSession(cfg: Config, packet: DecodedPacket) returns (wantsSync: bool, wantsStart: bool)
      modifies this`link
      ensures var u := UdpPeer.UpdateSession(old(Server()).peer, cfg, packet);
              link == u.link && wantsSync == u.wantsSync && wantsStart == u.wantsStart
    {
      var payload := packet.payload;
      if packet.opcode == 0x00 && |payload| == 10 {
        link := link.(token := DoubleWordAt(payload, 0), advertisedIp := DoubleWordAt(payload, 4),
                      advertisedPort := WordAt(payload, 8));
        link := link.(hasHandshake := true, session := UdpPeer.BootstrapAccepted);
        return !progress.sentSync, false;
      } else if packet.opcode == 0x01 && payload == [] {
        link := link.(session := UdpPeer.ClientReady);
        return false, cfg.gameplaySync && progress.sentSync && !progress.sentElapsed;
      } else if packet.opcode == 0x0a {
        link := link.(session := UdpPeer.Started);
      }
      return false, false;
    }

    /** Decodes, applies and acknowledges a reliable packet. */
    method ReceiveReliable(cfg: Config, d: UdpPeer.Datagram, inner: bytes)
      returns (wantsSync: bool, wantsStart: bool)
      requires Valid() && d.arrival.Single? && d.arrival.decoded == DecodeInner(inner)
      modifies this
      ensures Valid()
      ensures var stages := UdpPeer.ReliablePhases(old(Server()), cfg, d);
              Server() == stages.acked && wantsSync == stages.wantsSync && wantsStart == stages.wantsStart
    {
      var decoded := DecodeInnerPacket(inner);
      wantsSync, wantsStart := false, false;
      if decoded.Some? {
        link := link.(lastClientReliable := d.arrival.base);
        if decoded.value.checksumOk {
          wantsSync, wantsStart := ApplyPacket(cfg, decoded.value, d.now);
        }
      }
      SendReply(UdpPeer.Acknowledgement(d.arrival.base, 5));
    }

    method ApplyPacket(cfg: Config, packet: DecodedPacket, now: nat) returns (wantsSync: bool, wantsStart: bool)
      requires Valid()
      modifies this
      ensures Valid()
      ensures var u := UdpPeer.UpdateSession(old(Server()).peer, cfg, packet);
              && Server() == UdpPeer.HandlePacket(UpdatedWith(old(Server()), u.link), cfg, packet, now)
              && wantsSync == u.wantsSync && wantsStart == u.wantsStart
    {
      wantsSync, wantsStart := UpdateSession(cfg, packet);
      HandlePacket(cfg, packet, now);
    }

    method HandleReliable(cfg: Config, d: UdpPeer.Datagram, inner: bytes)
      requires Valid() && d.arrival.Single? && d.arrival.decoded == DecodeInner(inner)
      modifies this
      ensures Valid() && Server() == UdpPeer.ReliablePhase(old(Server()), cfg, d)
    {
      var wantsSync, wantsStart := ReceiveReliable(cfg, d, inner);
      if wantsSync {
        InitialSync(cfg, d.context, d.now);
      }
      if wantsStart {
        StartElapsed(cfg, d.now);
      }
    }

    /** One turn of the receive loop. */
    method HandleDatagram(cfg: Config, data: bytes, now: nat, context: Option<UdpPeer.SyncContext>)
      requires Valid()
      modifies this
      ensures Valid() && Server() ==
              UdpPeer.Step(old(Server()), cfg, UdpPeer.Datagram(UdpPeer.Arrived(data), now, context))
    {
      ghost var d := UdpPeer.Datagram(UdpPeer.Arrived(data), now, context);
      if |data| < 3 {
        return;
      }
      var check := TransportCheckByte(data);
      if data[2] != check {
        return;
      }
      Serve(cfg, data, now, context);
      MaybeSendGameStateTick(cfg, now);
    }

    /** What a datagram that passed the transport check is answered with. */
    method Serve(cfg: Config, data: bytes, now: nat, context: Option<UdpPeer.SyncContext>)
      requires Valid() && TransportOk(data)
      modifies this
      ensures Valid() && Server() ==
              UdpPeer.Served(old(Server()), cfg, UdpPeer.Datagram(UdpPeer.Arrived(data), now, context))
    {
      var word := WordAt(data, 0);
      var kind, base := word % 8, Base(word);
      if kind == 0 {
        var packets := DecodeInnerStream(data[3..]);
        if cfg.gameplaySync {
          AnswerRequests(packets);
        }
      } else if kind == 1 {
        var packets := DecodeInnerStream(data[3..]);
        HandlePackets(cfg, packets, now);
        SendReply(UdpPeer.Acknowledgement(base, 4));
      } else if kind == 2 {
        HandleReliable(cfg, UdpPeer.Datagram(UdpPeer.Arrived(data), now, context), data[3..]);
      } else if kind == 3 {
        SendReply(UdpPeer.ProbeAnswer(word));
      }
    }
  }

  /** A datagram as it is received, and what the provider would answer. */
  datatype Input = Input(data: bytes, now: nat, context: Option<UdpPeer.SyncContext>)

  function Decoded(inputs: seq<Input>): seq<UdpPeer.Datagram> {
    seq(|inputs|, i requires 0 <= i < |inputs| =>
      UdpPeer.Datagram(UdpPeer.Arrived(inputs[i].data), inputs[i].now, inputs[i].context))
  }

  /** Feeding a list of datagrams to a new peer object puts it in the state the run function computes. */
  method ServePeer(cfg: Config, inputs: seq<Input>) returns (peer: PeerState)
    ensures peer.Valid() && peer.Server() == UdpPeer.Run(cfg, Decoded(inputs))
  {
    peer := new PeerState();
    for i := 0 to |inputs|
      invariant peer.Valid() && fresh(peer) && peer.Server() == UdpPeer.Run(cfg, Decoded(inputs[..i]))
    {
      ghost var more := Decoded(inputs[..i + 1]);
      assert more[..i] == Decoded(inputs[..i]) && more[i] == Decoded(inputs)[i];
      peer.HandleDatagram(cfg, inputs[i].data, inputs[i].now, inputs[i].context);
    }
    assert inputs[..|inputs|] == inputs;
  }
}
