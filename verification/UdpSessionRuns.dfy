/** The order of the session packets over every run: one sync block, then one start packet behind its
    stats; and what the reliable frames look like on the wire. */
module UdpSessionRuns {
  import opened Bytes
  import opened UdpMessages
  import opened UdpProtocol
  import opened UdpCombat
  import opened UdpPeer
  import opened UdpRuns

  /** Empty, or room header, two control records, entity snapshots, completion. */
  predicate IsSyncBlock(ops: seq<byte>) {
    ops == [] || (|ops| >= 4 && ops[..3] == [0x02, 0x23, 0x23] && ops[|ops| - 1] == 0x04 &&
                  forall i :: 3 <= i < |ops| - 1 ==> ops[i] == 0x03)
  }

  /** A sync block, then the start packet once it has been sent. */
  predicate IsJourney(ops: seq<byte>, started: bool) {
    if started then ops != [] && ops[|ops| - 1] == 0x05 && IsSyncBlock(ops[..|ops| - 1]) else IsSyncBlock(ops)
  }

  ghost predicate JourneyInv(s: Server) {
    var ops, p := SessionOps(s.sent), s.peer.progress;
    && IsJourney(ops, p.sentElapsed)
    && (!p.sentSync ==> ops == [] && !p.sentElapsed)
    && (p.sentStats ==> p.sentElapsed)
  }

  lemma {:induction false} StatsHaveNoOps(packets: seq<Outgoing>)
    requires forall p <- packets :: p.channel == Reliable ==> p.message.StatUpdate?
    ensures OpsOf(packets) == []
  {
    if packets != [] { StatsHaveNoOps(packets[1..]); }
  }

  /** Handling a combat packet touches neither the session flags nor the session packets. */
  lemma EventKeepsJourney(s: Server, cfg: Config, packet: DecodedPacket, now: nat) returns (t: Server)
    requires JourneyInv(s) && Fair(cfg.rules)
    ensures t == HandlePacket(s, cfg, packet, now) && JourneyInv(t)
  {
    t := HandlePacket(s, cfg, packet, now);
    HandledViews(s, cfg, packet, 0, ThePlayer);
    assert Lawful(s.peer.combat, cfg.rules(s.peer.combat, packet));
    StatsHaveNoOps(cfg.rules(s.peer.combat, packet).packets);
    assert SessionOps(s.sent) + [] == SessionOps(s.sent);
    CheckTerminalOnlyQueues(if cfg.gameplaySync then Handled(s, cfg, packet) else s, cfg, now, false);
  }

  // ---------------------------------------------------------------- the sync block

  /** Snapshots and the completion, however many snapshots are too long to send. */
  lemma {:induction false} SnapshotOps(snapshots: seq<Outgoing>)
    requires forall p <- snapshots :: p.channel == Reliable && p.message.EntitySnapshot?
    ensures var ops := OpsOf(snapshots + [Outgoing(Reliable, SyncComplete)]);
            ops != [] && ops[|ops| - 1] == 0x04 && forall i :: 0 <= i < |ops| - 1 ==> ops[i] == 0x03
  {
    var last := [Outgoing(Reliable, SyncComplete)];
    if snapshots == [] {
      assert snapshots + last == last && OpsOf(last[1..]) == [];
    } else {
      assert (snapshots + last)[1..] == snapshots[1..] + last;
      SnapshotOps(snapshots[1..]);
    }
  }

  lemma WorldOps(world: World)
    requires HeaderFits(world)
    ensures var ops := OpsOf(OnReliable(WorldMessages(world))); ops != [] && IsSyncBlock(ops)
  {
    var packets, n := OnReliable(WorldMessages(world)), |world.entities|;
    var snapshots, last := packets[3..n + 3], [Outgoing(Reliable, SyncComplete)];
    assert packets[1..][1..][1..] == snapshots + last;
    SnapshotOps(snapshots);
    assert OpsOf(packets) == [0x02] + OpsOf(packets[1..]);
    assert OpsOf(packets[1..]) == [0x23] + OpsOf(packets[1..][1..]);
    assert OpsOf(packets[1..][1..]) == [0x23] + OpsOf(snapshots + last);
    BlockIsSync(OpsOf(packets), OpsOf(snapshots + last));
  }

  lemma BlockIsSync(ops: seq<byte>, rest: seq<byte>)
    requires ops == [0x02] + ([0x23] + ([0x23] + rest))
    requires rest != [] && rest[|rest| - 1] == 0x04 && forall i :: 0 <= i < |rest| - 1 ==> rest[i] == 0x03
    ensures IsSyncBlock(ops)
  {
    assert ops[..3] == [0x02, 0x23, 0x23];
    forall i | 3 <= i < |ops| - 1 ensures ops[i] == 0x03 { assert ops[i] == rest[i - 3]; }
  }

  lemma SyncKeepsJourney(s: Server, cfg: Config, ctx: Option<SyncContext>, now: nat)
    requires JourneyInv(s) && !s.peer.progress.sentSync
    ensures JourneyInv(InitialSync(s, cfg, ctx, now))
  {
    var world, started := SyncViews(s, cfg, ctx, now, 0, ThePlayer);
    if world.Some? {
      WorldOps(world.value);
      var ops := OpsOf(OnReliable(WorldMessages(world.value)));
      assert [] + ops == ops;
    }
  }

  // ---------------------------------------------------------------- the start packet

  lemma {:induction false} StatsArrive(messages: seq<Message>)
    requires forall m <- messages :: m.StatUpdate?
    ensures Arriving(OnReliable(messages)) == messages
  {
    if messages != [] {
      StatsArrive(messages[1..]);
      assert OnReliable(messages)[1..] == OnReliable(messages[1..]);
    }
  }

  lemma BlockThenStart(ops: seq<byte>)
    requires IsJourney(ops, false)
    ensures IsJourney(ops + [] + [0x05], true)
  {
    assert ops + [] == ops && (ops + [0x05])[..|ops|] == ops;
  }

  lemma BeginKeepsJourney(s: Server, cfg: Config, now: nat)
    requires JourneyInv(s) && s.peer.progress.sentSync && !s.peer.progress.sentElapsed
    ensures JourneyInv(StartElapsedPhase(s, cfg, now))
  {
    var packets := StatsViews(s, cfg, 0, ThePlayer);
    var u, ms := BeginViews(s, cfg, now, 0, ThePlayer);
    StatsHaveNoOps(packets);
    BlockThenStart(SessionOps(s.sent));
  }

  lemma MoveKeepsJourney(s: Server, cfg: Config, m: Move)
    requires JourneyInv(s) && Enabled(s, m) && Fair(cfg.rules)
    ensures JourneyInv(Apply(s, cfg, m))
  {
    match m {
      case Event(packet, now) => var t := EventKeepsJourney(s, cfg, packet, now);
      case Synchronise(context, now) => SyncKeepsJourney(s, cfg, context, now);
      case Begin(now) => BeginKeepsJourney(s, cfg, now);
      case _ => QuietMoves(s, cfg, m);
    }
  }

  /** Over every run the session packets are one sync block at most, followed by one start packet at most. */
  lemma RunJourney(cfg: NativeConfig, datagrams: seq<Datagram>)
    ensures JourneyInv(Run(cfg, datagrams))
  {
    NativeRulesAreFair(cfg);
    RunKeepsJourney(cfg, datagrams);
  }

  lemma RunKeepsJourney(cfg: Config, datagrams: seq<Datagram>)
    requires Fair(cfg.rules)
    ensures JourneyInv(Run(cfg, datagrams))
  {
    forall s: Server, m: Move | JourneyInv(s) && Enabled(s, m) ensures JourneyInv(Apply(s, cfg, m)) {
      MoveKeepsJourney(s, cfg, m);
    }
    Always(cfg, datagrams, s => JourneyInv(s), m => true);
  }

  lemma OnlyBeginStarts(s: Server, cfg: Config, m: Move)
    requires !s.peer.progress.sentElapsed && !m.Begin?
    ensures !Apply(s, cfg, m).peer.progress.sentElapsed
  {
    match m {
      case Event(packet, now) => EventKeepsProgress(s, cfg, packet, now);
      case Synchronise(context, now) => var world, started := SyncViews(s, cfg, context, now, 0, ThePlayer);
      case _ => QuietMoves(s, cfg, m);
    }
  }

  /** Nothing but a client-ready packet starts the mission. */
  lemma OthersDoNotStart(s: Server, cfg: Config, d: Datagram)
    requires !s.peer.progress.sentElapsed && !StartsNow(s, cfg, d)
    ensures !Served(s, cfg, d).peer.progress.sentElapsed
  {
    var moves := ServeMoves(s, cfg, d);
    ServedIsMoves(s, cfg, d);
    MovesFit(s, cfg, d);
    forall t: Server, m: Move | !t.peer.progress.sentElapsed && !m.Begin?
      ensures !Apply(t, cfg, m).peer.progress.sentElapsed
    {
      OnlyBeginStarts(t, cfg, m);
    }
    MovesKeep(s, cfg, moves, |moves|, (t: Server) => !t.peer.progress.sentElapsed, (m: Move) => !m.Begin?);
    assert moves[..|moves|] == moves;
  }

  /** Rules of combat for which a packet without payload is no event. */
  ghost predicate Idle(rules: Rules) {
    forall c: Combat, packet: DecodedPacket :: packet.payload == [] ==> rules(c, packet) == UdpCombat.Unchanged(c)
  }

  /** A client-ready packet is not a combat event. */
  lemma ReadyIsNoEvent(s: Server, cfg: Config, packet: DecodedPacket, now: nat)
    requires packet.payload == [] && Idle(cfg.rules)
    ensures var t := HandlePacket(s, cfg, packet, now);
            t.sent == s.sent && t.accepted == s.accepted && OnlyLatched(s.peer, t.peer)
  {
    assert cfg.rules(s.peer.combat, packet) == UdpCombat.Unchanged(s.peer.combat);
    assert s.accepted + [] == s.accepted && SendAll(s, []) == s;
    CheckTerminalOnlyQueues(s, cfg, now, false);
  }

  lemma ReadyIsAcknowledged(s: Server, cfg: Config, packets: seq<DecodedPacket>, now: nat, ack: TransportReply)
    requires |packets| == 1 && packets[0].payload == [] && Idle(cfg.rules)
    ensures var t := SendReply(HandlePackets(s, cfg, packets, now), ack);
            && Reliables(t.sent) == Reliables(s.sent) && t.peer.combat == s.peer.combat
            && t.peer.assignment == s.peer.assignment && t.peer.progress.sentStats == s.peer.progress.sentStats
  {
    var handled := HandlePacket(s, cfg, packets[0], now);
    assert packets[1..] == [] && HandlePackets(s, cfg, packets, now) == handled;
    ReadyIsNoEvent(s, cfg, packets[0], now);
    assert SendReply(handled, ack).sent[..|s.sent|] == s.sent;
  }

  lemma ReadyDatagram(s: Server, cfg: Config, d: Datagram) returns (ms: u32, t: Server)
    requires JourneyInv(s) && StartsNow(s, cfg, d) && Idle(cfg.rules)
    ensures t == Served(s, cfg, d)
    ensures && Reliables(t.sent) == Reliables(s.sent) + StatsBlock(s.peer.combat, cfg) + [StartElapsed(ms)]
            && t.peer.combat == s.peer.combat && ms == ElapsedMs(s.peer.assignment, d.now)
  {
    var updated, events, acked, sync, synced, start := StagesOf(s, cfg, d);
    ReadyIsAcknowledged(updated, cfg, events, d.now, Acknowledgement(d.arrival.base, 5));
    ms := ReliablesOfBegin(acked, cfg, d.now);
    t := StartElapsedPhase(acked, cfg, d.now);
  }

  lemma ReliablesOfBegin(s: Server, cfg: Config, now: nat) returns (ms: u32)
    requires !s.peer.progress.sentStats
    ensures var t := StartElapsedPhase(s, cfg, now);
            && Reliables(t.sent) == Reliables(s.sent) + StatsBlock(s.peer.combat, cfg) + [StartElapsed(ms)]
            && t.peer.combat == s.peer.combat && ms == ElapsedMs(s.peer.assignment, now)
  {
    var packets := StatsViews(s, cfg, 0, ThePlayer);
    StatsArrive(StatsBlock(s.peer.combat, cfg));
    var u;
    u, ms := BeginViews(s, cfg, now, 0, ThePlayer);
  }

  /** The datagram that sends the start packet sends, as reliable packets, the stats of the player and of
      every entity and then the start packet with the time since the sync, and no other; it changes no stat. */
  lemma StatsPrecedeStart(cfg: NativeConfig, datagrams: seq<Datagram>, d: Datagram) returns (ms: u32)
    requires !Run(cfg, datagrams).peer.progress.sentElapsed && Run(cfg, datagrams + [d]).peer.progress.sentElapsed
    ensures var s, t := Run(cfg, datagrams), Run(cfg, datagrams + [d]);
            && Reliables(t.sent) == Reliables(s.sent) + StatsBlock(t.peer.combat, cfg) + [StartElapsed(ms)]
            && t.peer.combat == s.peer.combat && ms == ElapsedMs(s.peer.assignment, d.now)
  {
    assert (datagrams + [d])[..|datagrams|] == datagrams;
    RunJourney(cfg, datagrams);
    assert Idle(cfg.rules);
    ms := StepStarts(Run(cfg, datagrams), cfg, d, Run(cfg, datagrams + [d]));
  }

  lemma StepStarts(s: Server, cfg: Config, d: Datagram, t: Server) returns (ms: u32)
    requires Idle(cfg.rules) && JourneyInv(s) && !s.peer.progress.sentElapsed
    requires t == Step(s, cfg, d) && t.peer.progress.sentElapsed
    ensures && Reliables(t.sent) == Reliables(s.sent) + StatsBlock(t.peer.combat, cfg) + [StartElapsed(ms)]
            && t.peer.combat == s.peer.combat && ms == ElapsedMs(s.peer.assignment, d.now)
  {
    PulseIsQuiet(Served(s, cfg, d), cfg, d.now);
    if !StartsNow(s, cfg, d) { OthersDoNotStart(s, cfg, d); }
    var served;
    ms, served := ReadyDatagram(s, cfg, d);
  }

  lemma PulseIsQuiet(s: Server, cfg: Config, now: nat)
    ensures var t := Tick(s, cfg, now);
            && Reliables(t.sent) == Reliables(s.sent) && t.peer.combat == s.peer.combat
            && t.peer.progress.sentElapsed == s.peer.progress.sentElapsed
  {
    QuietTick(s, cfg, now);
  }

  // ---------------------------------------------------------------- frames on the wire

  /** The k-th reliable frame on the wire carries kind 2 and the sequence base 8k modulo 65536. */
  lemma ReliableFrameHeader(cfg: Config, datagrams: seq<Datagram>, i: nat)
    requires var s := Run(cfg, datagrams); i < |s.sent| && s.sent[i].Framed? && s.sent[i].channel == Reliable
    ensures var f := Run(cfg, datagrams).sent[i];
            var k := |Bases(Run(cfg, datagrams).sent[..i], Reliable)|;
            && TransportOk(FrameBytes(f))
            && WordAt(FrameBytes(f), 0) == 8 * k % 0x1_0000 + 2
            && DecodeInner(FrameBytes(f)[3..]) == Some(DecodedPacket(Opcode(f.message), Payload(f.message), true))
  {
    RunSequences(cfg, datagrams);
    BasesPrefix(Run(cfg, datagrams).sent, i);
    var f, k := Run(cfg, datagrams).sent[i], |Bases(Run(cfg, datagrams).sent[..i], Reliable)|;
    assert f in Run(cfg, datagrams).sent;
    FrameOfMessage(k, f.message);
  }

  lemma FrameOfMessage(k: nat, m: Message)
    requires Sendable(m)
    ensures var f := FrameBytes(Framed(Reliable, 8 * k % 0x1_0000, m));
            && TransportOk(f) && WordAt(f, 0) == 8 * k % 0x1_0000 + 2
            && DecodeInner(f[3..]) == Some(DecodedPacket(Opcode(m), Payload(m), true))
  {
    MessageReadsBack(m);
    ReliableFrameCarries(k, InnerBytes(m));
  }

  lemma MessageReadsBack(m: Message)
    requires Sendable(m)
    ensures DecodeInner(InnerBytes(m)) == Some(DecodedPacket(Opcode(m), Payload(m), true))
  {
    PayloadLengthIs(m);
    InnerRoundTrip(Opcode(m), Payload(m));
  }

  lemma ReliableFrameCarries(k: nat, inner: bytes)
    ensures var f := ReliableFrame(8 * k % 0x1_0000, inner);
            TransportOk(f) && WordAt(f, 0) == 8 * k % 0x1_0000 + 2 && f[3..] == inner
  {
    var base: u16 := 8 * k % 0x1_0000;
    assert base % 8 == 0 by { assert 8 * k == 8 * (0x2000 * (8 * k / 0x1_0000)) + base; }
    SealedOk(base + 2, inner);
  }

  lemma {:induction false} BasesPrefix(sent: seq<Sent>, i: nat)
    requires i < |sent| && sent[i].Framed?
    ensures var channel := sent[i].channel; var k := |Bases(sent[..i], channel)|;
            k < |Bases(sent, channel)| && Bases(sent, channel)[k] == sent[i].base
  {
    var n := |sent| - 1;
    if i < n {
      assert sent[..n][..i] == sent[..i];
      BasesPrefix(sent[..n], i);
    }
  }
}
