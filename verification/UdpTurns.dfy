/** What the turns of a run do when they are due: the handshake that starts a world, the packet that starts the mission,
    the tick, the result, and the answers to everything that arrives. */
module UdpTurns {
  import opened Bytes
  import opened UdpMessages
  import opened UdpProtocol
  import opened UdpCombat
  import opened UdpPeer
  import opened UdpRuns
  import opened UdpMoments
  import opened UdpSessionRuns

  // ---------------------------------------------------------------- frames arrive as what was sent

  lemma WordOfKind(sequence: u16, kind: nat)
    requires kind < 8
    ensures var base := sequence - sequence % 8;
            var word: u16 := base + kind; word % 8 == kind && word - word % 8 == base && Base(sequence) == base
  {
    var q := sequence as int / 8;
    assert sequence == 8 * q + sequence % 8;
    assert (8 * q + kind) / 8 == q;
  }

  /** A packet in a reliable frame arrives as itself, with its sequence base. */
  lemma ReliableArrives(sequence: u16, packet: Inner)
    requires Encodable(packet)
    ensures Arrived(ReliableFrame(sequence, EncodedBytes(packet))) ==
            Single(sequence - sequence % 8, Some(DecodedPacket(packet.opcode, packet.payload, true)))
  {
    SingleArrives(sequence, EncodedBytes(packet));
    InnerRoundTrip(packet.opcode, packet.payload);
  }

  lemma FrameArrives(f: bytes, word: u16, body: bytes)
    requires TransportOk(f) && Word(f[0], f[1]) == word && f[3..] == body
    ensures word % 8 == 0 ==> Arrived(f) == Requests(DecodeStream(body))
    ensures word % 8 == 1 ==> Arrived(f) == Stream(Base(word), DecodeStream(body))
    ensures word % 8 == 2 ==> Arrived(f) == Single(Base(word), DecodeInner(body))
  {
  }

  lemma SingleArrives(sequence: u16, body: bytes)
    ensures Arrived(ReliableFrame(sequence, body)) == Single(sequence - sequence % 8, DecodeInner(body))
  {
    WordOfKind(sequence, 2);
    var word: u16 := sequence - sequence % 8 + 2;
    SealedOk(word, body);
    FrameArrives(Sealed(word, body), word, body);
  }

  lemma WholeStream(packets: seq<Inner>) returns (body: bytes)
    requires forall p <- packets :: Encodable(p)
    ensures body == EncodeStream(packets) && DecodeStream(body) == ReceivedAll(packets)
  {
    body := EncodeStream(packets);
    StreamRoundTrip(packets, Inner(0, []), 0);
    assert EncodeStream(packets) + EncodedBytes(Inner(0, []))[..0] == EncodeStream(packets);
  }

  lemma StreamArrives(sequence: u16, body: bytes)
    ensures Arrived(SequencedFrame(sequence, body)) == Stream(sequence - sequence % 8, DecodeStream(body))
  {
    WordOfKind(sequence, 1);
    var word: u16 := sequence - sequence % 8 + 1;
    SealedOk(word, body);
    FrameArrives(Sealed(word, body), word, body);
  }

  lemma RequestsArrive(body: bytes)
    ensures Arrived(UnsequencedFrame(body)) == Requests(DecodeStream(body))
  {
    SealedOk(0, body);
    FrameArrives(Sealed(0, body), 0, body);
  }

  /** The packets in a sequenced frame arrive in their order, with its sequence base; those in an unsequenced one arrive
      as requests. */
  lemma PacketsArrive(sequence: u16, packets: seq<Inner>)
    requires forall p <- packets :: Encodable(p)
    ensures Arrived(SequencedFrame(sequence, EncodeStream(packets))) ==
            Stream(sequence - sequence % 8, ReceivedAll(packets))
    ensures Arrived(UnsequencedFrame(EncodeStream(packets))) == Requests(ReceivedAll(packets))
  {
    var body := WholeStream(packets);
    StreamArrives(sequence, body);
    RequestsArrive(body);
  }

  /** A frame with one byte changed on its way is dropped. */
  lemma DamagedIsDropped(frame: bytes, i: nat, v: byte)
    requires TransportOk(frame) && i < |frame| && v != frame[i]
    ensures Arrived(frame[i := v]) == Dropped
  {
    TransportDamageDetected(frame, i, v);
  }

  /** An acknowledgement lists one sequence base, the one that was received. */
  lemma AcknowledgementNames(base: u16, kind: byte) returns (f: bytes)
    requires kind == 4 || kind == 5
    ensures f == ReplyBytes(Acknowledgement(base, kind))
    ensures TransportOk(f) && |f| == 5 && WordAt(f, 0) == 8 + kind && WordAt(f, 3) == base
  {
    var body := WordBytes(base);
    f := SealedBody(8 + kind % 8, body);
    assert f[3] == f[3..][0] && f[4] == f[3..][1];
  }

  lemma SealedBody(word: u16, body: bytes) returns (f: bytes)
    ensures f == Sealed(word, body) && TransportOk(f) && |f| == |body| + 3 && WordAt(f, 0) == word && f[3..] == body
  {
    f := Sealed(word, body);
    SealedOk(word, body);
  }

  /** The answer to a probe repeats its sequence with another kind. */
  lemma ProbeIsAnswered(word: u16) returns (f: bytes)
    ensures f == ReplyBytes(ProbeAnswer(word)) && TransportOk(f) && |f| == 3 && WordAt(f, 0) == word - word % 8 + 6
  {
    f := SealedBody(word - word % 8 + 6, []);
  }

  // ---------------------------------------------------------------- the world

  predicate IsNumberedCategory(id: u16, category: byte) {
    && (category == 1 <==> id < 1004) && (category == 2 <==> 2004 <= id <= 4003)
    && (category == 3 <==> 5004 <= id <= 7003) && (category == 4 <==> 8004 <= id <= 9999) && category <= 4
  }

  predicate IsSpawnOf(s: Spawn, d: EntityDefinition) {
    && s.id == d.id && s.snapshot == d.snapshot
    && match d.category case Some(category) => s.category == category case None => IsNumberedCategory(d.id, s.category)
  }

  /** The world a context describes: the player, then the entities of the mission if it is for the scene, then ten
      hostile trainers in the training room and in the basilica. */
  ghost predicate Describes(ctx: SyncContext, w: World) {
    var mission := if ctx.mission.Some? && ctx.mission.value.scene == ctx.scene then ctx.mission else None;
    var definitions := if mission.Some? then mission.value.entities else [];
    var trained, n := ctx.rule == 3 || ctx.scene == Units("basilica"), |definitions| + 1;
    && w.scene == ctx.scene && w.rule == ctx.rule && |w.entities| == n + (if trained then 10 else 0)
    && w.entities[0] == Spawn(0x40, 1, ctx.playerSnapshot)
    && (forall i :: 0 <= i < |definitions| ==> IsSpawnOf(w.entities[i + 1], definitions[i]))
    && (trained ==> forall i :: n <= i < n + 10 ==> IsTrainer(w.entities[i], i - n, ctx.trainerSnapshots))
    && w.durationMs == if mission.Some? && mission.value.timeLimitSeconds != 0
                       then mission.value.timeLimitSeconds as int * 1000 % 0x1_0000_0000
                       else if ctx.limitMinutes != 0 then ctx.limitMinutes as int * 60_000 else 0x00dbd63e
  }

  predicate IsTrainer(s: Spawn, i: nat, snapshots: seq<bytes>) {
    s.id as int == 5068 + 8 * i && s.category == 3 && s.snapshot == if i < |snapshots| then snapshots[i] else []
  }

  lemma BuiltIsDescribed(ctx: SyncContext)
    ensures BuildWorld(ctx).Some? <==> ctx.assetKnown && ctx.characterId <= 255
    ensures BuildWorld(ctx).Some? ==> Describes(ctx, BuildWorld(ctx).value)
  {
    if BuildWorld(ctx).Some? {
      var w := BuildWorld(ctx).value;
      var mission := if ctx.mission.Some? && ctx.mission.value.scene == ctx.scene then ctx.mission else None;
      var definitions := if mission.Some? then mission.value.entities else [];
      var trained := ctx.rule == 3 || ctx.scene == Units("basilica");
      assert MissionSpawns([]) == [];
      SpawnsOf(Spawn(DEFAULT_PLAYER, 1, ctx.playerSnapshot), definitions, trained, ctx.trainerSnapshots, w.entities);
    }
  }

  lemma SpawnsOf(player: Spawn, definitions: seq<EntityDefinition>, trained: bool, snapshots: seq<bytes>,
                 all: seq<Spawn>)
    requires all == [player] + MissionSpawns(definitions) + (if trained then TrainerSpawns(snapshots) else [])
    ensures var n := |definitions| + 1;
            && |all| == n + (if trained then 10 else 0) && all[0] == player
            && (forall i :: 0 <= i < |definitions| ==> IsSpawnOf(all[i + 1], definitions[i]))
            && (trained ==> forall i :: n <= i < n + 10 ==> IsTrainer(all[i], i - n, snapshots))
  {
    var spawns, n := MissionSpawns(definitions), |definitions| + 1;
    forall i | 0 <= i < |definitions| ensures IsSpawnOf(all[i + 1], definitions[i]) { assert all[i + 1] == spawns[i]; }
    if trained {
      forall i | n <= i < n + 10 ensures IsTrainer(all[i], i - n, snapshots) {
        assert all[i] == TrainerSpawns(snapshots)[i - n];
      }
    }
  }

  /** The snapshots of at most 255 bytes, in the order of the entities. */
  function Snapshots(spawns: seq<Spawn>): seq<Message> {
    if spawns == [] then []
    else (if |spawns[0].snapshot| <= 255 then [EntitySnapshot(spawns[0].snapshot)] else []) + Snapshots(spawns[1..])
  }

  /** Everything that is sent about a world. */
  function SyncBlock(w: World): seq<Message> {
    [RoomHeader(if |w.entities| < 255 then |w.entities| else 255, w.rule, w.scene),
     ControlRecord(0x40, 1, 1), ControlRecord(0x40, 2, 1)] + Snapshots(w.entities) + [SyncComplete]
  }

  function SnapshotPackets(spawns: seq<Spawn>): seq<Outgoing> {
    seq(|spawns|, i requires 0 <= i < |spawns| => Outgoing(Reliable, EntitySnapshot(spawns[i].snapshot)))
  }

  lemma {:induction false} SnapshotsArrive(spawns: seq<Spawn>)
    ensures Arriving(SnapshotPackets(spawns) + [Outgoing(Reliable, SyncComplete)]) == Snapshots(spawns) + [SyncComplete]
  {
    var last := [Outgoing(Reliable, SyncComplete)];
    if spawns == [] {
      assert SnapshotPackets(spawns) + last == last && Arriving(last[1..]) == [];
    } else {
      SnapshotsArrive(spawns[1..]);
      assert (SnapshotPackets(spawns) + last)[1..] == SnapshotPackets(spawns[1..]) + last;
      Regroup(if |spawns[0].snapshot| <= 255 then [EntitySnapshot(spawns[0].snapshot)] else [], Snapshots(spawns[1..]),
              [SyncComplete]);
    }
  }

  lemma WorldArrives(w: World)
    requires HeaderFits(w)
    ensures Arriving(OnReliable(WorldMessages(w))) == SyncBlock(w)
  {
    var packets, rest := OnReliable(WorldMessages(w)), SnapshotPackets(w.entities) + [Outgoing(Reliable, SyncComplete)];
    SnapshotsArrive(w.entities);
    assert packets[1..][1..][1..] == rest;
    assert Arriving(packets) == [packets[0].message] + Arriving(packets[1..]);
    assert Arriving(packets[1..]) == [packets[1].message] + Arriving(packets[1..][1..]);
    assert Arriving(packets[1..][1..]) == [packets[2].message] + Arriving(rest);
    FourInFront(packets[0].message, packets[1].message, packets[2].message, Snapshots(w.entities), [SyncComplete]);
  }

  lemma FourInFront<T>(a: T, b: T, c: T, xs: seq<T>, ys: seq<T>)
    ensures [a] + ([b] + ([c] + (xs + ys))) == [a, b, c] + xs + ys
  {
  }

  predicate Fights(s: Spawn) { s.category == 2 || s.category == 3 }

  /** No later spawn takes the place of this one. */
  ghost predicate IsLast(spawns: seq<Spawn>, i: nat) {
    i < |spawns| && Fights(spawns[i]) && forall j :: i < j < |spawns| && spawns[j].id == spawns[i].id ==>
        !Fights(spawns[j])
  }

  function FullLife(category: byte): CombatEntity {
    if category == 2 then CombatEntity(1200, 1200, 0, 2) else CombatEntity(400, 400, 0, 3)
  }

  /** At the start those who fight are at full life: 1200 for an objective,
      400 for a hostile. Of several with one id the
      last one counts. */
  ghost predicate AtFullLife(entities: map<u16, CombatEntity>, spawns: seq<Spawn>) {
    && (forall id: u16 :: id in entities <==> exists s <- spawns :: s.id == id && Fights(s))
    && (forall i: nat :: IsLast(spawns, i) ==>
          && spawns[i].id in entities
          && entities[spawns[i].id] == FullLife(spawns[i].category))
  }

  lemma {:induction false} TableIsAtFullLife(spawns: seq<Spawn>)
    ensures AtFullLife(CombatTable(spawns), spawns)
  {
    if spawns != [] {
      var n := |spawns| - 1;
      TableIsAtFullLife(spawns[..n]);
      assert spawns == spawns[..n] + [spawns[n]];
      OneMoreSpawn(CombatTable(spawns[..n]), spawns[..n], spawns[n]);
    }
  }

  lemma OneMoreSpawn(table: map<u16, CombatEntity>, spawns: seq<Spawn>, s: Spawn)
    requires AtFullLife(table, spawns)
    ensures AtFullLife(if Fights(s) then table[s.id := FullLife(s.category)] else table, spawns + [s])
  {
    var all, after := spawns + [s], if Fights(s) then table[s.id := FullLife(s.category)] else table;
    forall id: u16 ensures id in after <==> exists x <- all :: x.id == id && Fights(x) {
      if id in table {
        var x :| x in spawns && x.id == id && Fights(x);
        assert x in all;
      } else if id in after {
        assert s in all;
      }
    }
    forall i: nat | IsLast(all, i) ensures all[i].id in after && after[all[i].id] == FullLife(all[i].category) {
      if i < |spawns| {
        assert all[i] == spawns[i] && all[|spawns|] == s;
        forall j | i < j < |spawns| && spawns[j].id == spawns[i].id ensures !Fights(spawns[j]) {
          assert all[j] == spawns[j];
        }
        assert IsLast(spawns, i);
      }
    }
  }

  // ---------------------------------------------------------------- the handshake

  /** A reliable packet that arrived whole. */
  predicate Carries(d: Datagram, opcode: byte, length: nat) {
    && d.arrival.Single? && d.arrival.decoded.Some? && d.arrival.decoded.value.checksumOk
    && d.arrival.decoded.value.opcode == opcode && |d.arrival.decoded.value.payload| == length
  }

  predicate IsHandshake(d: Datagram) { Carries(d, 0x00, 10) }

  predicate IsReady(d: Datagram) { Carries(d, 0x01, 0) }

  /** The provider knows a world that can be built, and its scene fits the room header. */
  predicate WorldIsKnown(cfg: Config, ctx: Option<SyncContext>) {
    && cfg.gameplaySync && cfg.hasProvider && ctx.Some?
    && ctx.value.assetKnown && ctx.value.characterId <= 255 && |ctx.value.scene| <= 124
  }

  /** The mission and combat of a world that has just been started. */
  ghost predicate StartsWorld(p: Peer, ctx: SyncContext, w: World, now: nat) {
    && p.assignment == Assignment(ctx.clientId, ctx.rule, ctx.scene, now, w.durationMs)
    && p.combat.playerId == 0x40 && p.combat.player == CombatEntity(600, 600, 0, 1)
    && p.combat.dead == {} && p.combat.chains == map[] && AtFullLife(p.combat.entities, w.entities)
    && !p.progress.sentStats && !p.progress.resultSent
  }

  /** A sync sends the whole of its world and starts it, or does neither; it is not repeated. */
  lemma SyncSendsWorld(s: Server, cfg: Config, ctx: Option<SyncContext>, now: nat) returns (w: Option<World>)
    ensures w.Some? <==> WorldIsKnown(cfg, ctx)
    ensures var t := InitialSync(s, cfg, ctx, now);
            && t.peer.progress.sentSync && t.peer.progress.sentElapsed == s.peer.progress.sentElapsed
            && t.results == s.results && t.accepted == s.accepted
            && t.peer.link == s.peer.link.(session := t.peer.link.session)
            && (s.peer.link.session == BootstrapAccepted ==> t.peer.link.session == InitialSyncSent)
            && if w.Some? then
                 && Describes(ctx.value, w.value) && StartsWorld(t.peer, ctx.value, w.value, now)
                 && Reliables(t.sent) == Reliables(s.sent) + SyncBlock(w.value)
               else t.sent == s.sent && t.peer.assignment == s.peer.assignment && t.peer.combat == s.peer.combat
  {
    var started, packets;
    w, started, packets := SyncSends(s, cfg, ctx, now);
    SendAllViews(started, packets, 0, ThePlayer);
    if ctx.Some? { BuiltIsDescribed(ctx.value); }
    if w.Some? {
      WorldArrives(w.value);
      TableIsAtFullLife(w.value.entities);
    }
  }

  /** A packet the combat rules pass over only has the mission checked. */
  lemma NoEvent(s: Server, cfg: NativeConfig, packet: DecodedPacket, now: nat)
    requires packet.opcode !in {0x03, 0x07, 0x3c}
    ensures var t := HandlePacket(s, cfg, packet, now);
            t.sent == s.sent && t.accepted == s.accepted && OnlyLatched(s.peer, t.peer)
  {
    assert cfg.rules(s.peer.combat, packet) == UdpCombat.Unchanged(s.peer.combat);
    assert s.accepted + [] == s.accepted && SendAll(s, []) == s;
    CheckTerminalOnlyQueues(s, cfg, now, false);
  }

  /** A session packet is acknowledged and its fields are noted, and then what is due is done. */
  lemma SessionPacket(s: Server, cfg: NativeConfig, d: Datagram, opcode: byte, length: nat) returns (acked: Server)
    requires Carries(d, opcode, length) && opcode !in {0x03, 0x07, 0x3c}
    ensures acked.sent == s.sent + [Reply(Acknowledgement(d.arrival.base, 5))] && acked.accepted == s.accepted
    ensures var p, packet := s.peer.(link := s.peer.link.(lastClientReliable := d.arrival.base)),
            d.arrival.decoded.value;
            var update := UpdateSession(p, cfg, packet);
            && OnlyLatched(p.(link := update.link), acked.peer)
            && Served(s, cfg, d) ==
                 var synced := if update.wantsSync then InitialSync(acked, cfg, d.context, d.now) else acked;
                 if update.wantsStart then StartElapsedPhase(synced, cfg, d.now) else synced
  {
    var stages := ReliablePhases(s, cfg, d);
    NoEvent(stages.updated, cfg, d.arrival.decoded.value, d.now);
    acked := stages.acked;
  }

  lemma TickWaits(s: Server, cfg: Config, now: nat)
    requires !s.peer.progress.sentElapsed
    ensures Tick(s, cfg, now) == s
  {
  }

  lemma FirstHandshake(s: Server, cfg: NativeConfig, d: Datagram) returns (w: Option<World>, t: Server)
    requires IsHandshake(d) && !s.peer.progress.sentSync && !s.peer.progress.sentElapsed
    ensures t == Step(s, cfg, d) && (w.Some? <==> WorldIsKnown(cfg, d.context))
    ensures var hello := d.arrival.decoded.value.payload;
            && t.peer.progress.sentSync && t.accepted == s.accepted
            && t.peer.link == Link(d.arrival.base, InitialSyncSent, true, DoubleWordAt(hello, 0),
                                   DoubleWordAt(hello, 4), WordAt(hello, 8))
            && if w.Some? then
                 && Describes(d.context.value, w.value) && StartsWorld(t.peer, d.context.value, w.value, d.now)
                 && Reliables(t.sent) == Reliables(s.sent) + SyncBlock(w.value)
               else
                 && t.sent == s.sent + [Reply(Acknowledgement(d.arrival.base, 5))]
                 && t.peer.assignment == s.peer.assignment && t.peer.combat == s.peer.combat
  {
    var acked := HandshakeAcknowledged(s, cfg, d);
    w := SyncSendsWorld(acked, cfg, d.context, d.now);
    t := InitialSync(acked, cfg, d.context, d.now);
    TickWaits(InitialSync(acked, cfg, d.context, d.now), cfg, d.now);
  }

  lemma HandshakeAcknowledged(s: Server, cfg: NativeConfig, d: Datagram) returns (acked: Server)
    requires IsHandshake(d) && !s.peer.progress.sentSync
    ensures Step(s, cfg, d) == Tick(InitialSync(acked, cfg, d.context, d.now), cfg, d.now)
    ensures acked.sent == s.sent + [Reply(Acknowledgement(d.arrival.base, 5))] &&
            Reliables(acked.sent) == Reliables(s.sent)
    ensures var hello := d.arrival.decoded.value.payload;
            && acked.peer.link == Link(d.arrival.base, BootstrapAccepted, true, DoubleWordAt(hello, 0),
                                       DoubleWordAt(hello, 4), WordAt(hello, 8))
            && acked.accepted == s.accepted && acked.peer.progress.sentElapsed == s.peer.progress.sentElapsed
            && acked.peer.assignment == s.peer.assignment && acked.peer.combat == s.peer.combat
  {
    acked := SessionPacket(s, cfg, d, 0x00, 10);
    assert acked.sent[..|s.sent|] == s.sent;
  }

  /** The first handshake starts the world its context describes: the room header that announces its entities, two
      control records, the snapshots of at most 255 bytes in order and the completion, and nothing else among the
      reliable packets; the mission starts now and those who fight are at full life. Without such a world nothing but
      an acknowledgement is sent. Either way the handshake is on record and the attempt is not repeated. */
  lemma HandshakeStartsWorld(cfg: NativeConfig, datagrams: seq<Datagram>, d: Datagram) returns (w: Option<World>)
    requires IsHandshake(d) && !Run(cfg, datagrams).peer.progress.sentSync
    ensures w.Some? <==> WorldIsKnown(cfg, d.context)
    ensures var s, t, hello := Run(cfg, datagrams), Run(cfg, datagrams + [d]), d.arrival.decoded.value.payload;
            && t.peer.progress.sentSync && t.accepted == s.accepted
            && t.peer.link == Link(d.arrival.base, InitialSyncSent, true, DoubleWordAt(hello, 0),
                                   DoubleWordAt(hello, 4), WordAt(hello, 8))
            && if w.Some? then
                 && Describes(d.context.value, w.value) && StartsWorld(t.peer, d.context.value, w.value, d.now)
                 && Reliables(t.sent) == Reliables(s.sent) + SyncBlock(w.value)
               else
                 && t.sent == s.sent + [Reply(Acknowledgement(d.arrival.base, 5))]
                 && t.peer.assignment == s.peer.assignment && t.peer.combat == s.peer.combat
  {
    RunJourney(cfg, datagrams);
    assert (datagrams + [d])[..|datagrams|] == datagrams;
    var t;
    w, t := FirstHandshake(Run(cfg, datagrams), cfg, d);
  }

  // ---------------------------------------------------------------- no other turn starts a world

  predicate IsSyncMessage(m: Message) { m.RoomHeader? || m.ControlRecord? || m.EntitySnapshot? || m.SyncComplete? }

  predicate NoSyncMessage(m: Message) { !IsSyncMessage(m) }

  lemma OnlyHandshakesSync(s: Server, cfg: Config, d: Datagram)
    requires s.peer.progress.sentSync || !IsHandshake(d)
    ensures forall m <- Moves(s, cfg, d) :: !m.Synchronise?
  {
    EventsAreMoves(s, cfg, CombatPackets(d), d.now);
    if d.arrival.Requests? { AnswersAreMoves(s, cfg, d.arrival.requests); }
    if d.arrival.Single? { NoSyncIsDue(s, cfg, d); }
  }

  lemma NoSyncIsDue(s: Server, cfg: Config, d: Datagram)
    requires d.arrival.Single? && (s.peer.progress.sentSync || !IsHandshake(d))
    ensures !ReliablePhases(s, cfg, d).wantsSync
    ensures forall m <- ReliableMoves(s, cfg, d) :: m.Synchronise? ==> m in Events(CombatPackets(d), d.now)
  {
  }

  /** No world has been started between two moments. */
  ghost predicate SameWorld(s: Server, t: Server) {
    && Appends(s.sent, t.sent, NoSyncMessage)
    && t.peer.assignment == s.peer.assignment && t.peer.progress.sentSync == s.peer.progress.sentSync
    && t.peer.combat.entities.Keys == s.peer.combat.entities.Keys
  }

  lemma MoveStartsNoWorld(s: Server, t: Server, cfg: NativeConfig, m: Move)
    requires SameWorld(s, t) && !m.Synchronise?
    ensures SameWorld(s, Apply(t, cfg, m))
  {
    var u := Apply(t, cfg, m);
    match m {
      case Event(packet, now) => EventStartsNoWorld(t, cfg, packet, now);
      case Begin(now) => BeginStartsNoWorld(t, cfg, now);
      case Pulse(now) => PulseStartsNoWorld(t, cfg, now);
      case _ => QuietMoves(t, cfg, m);
    }
    AppendsTwice(s.sent, t.sent, u.sent, NoSyncMessage);
  }

  lemma BeginStartsNoWorld(s: Server, cfg: Config, now: nat)
    ensures SameWorld(s, StartElapsedPhase(s, cfg, now))
  {
    BeginAppends(s, cfg, now, NoSyncMessage);
    var packets := StatsViews(s, cfg, 0, ThePlayer);
    var u, ms := BeginViews(s, cfg, now, 0, ThePlayer);
  }

  lemma PulseStartsNoWorld(s: Server, cfg: Config, now: nat)
    ensures SameWorld(s, Tick(s, cfg, now))
  {
    TickSends(s, cfg, now);
    QuietTick(s, cfg, now);
  }

  lemma EventStartsNoWorld(s: Server, cfg: NativeConfig, packet: DecodedPacket, now: nat)
    ensures SameWorld(s, HandlePacket(s, cfg, packet, now))
  {
    HandleSpeaksCombat(s.peer.combat, packet);
    HandleIsLawful(s.peer.combat, packet);
    EventAppends(s, cfg, packet, now, NoSyncMessage);
    HandledViews(s, cfg, packet, 0, ThePlayer);
    CheckTerminalOnlyQueues(Handled(s, cfg, packet), cfg, now, false);
    CheckTerminalOnlyQueues(s, cfg, now, false);
  }

  /** Any other turn, a second handshake included, sends nothing of a world and leaves mission and participants as they
      are. */
  lemma OthersStartNoWorld(cfg: NativeConfig, datagrams: seq<Datagram>, d: Datagram)
    requires Run(cfg, datagrams).peer.progress.sentSync || !IsHandshake(d)
    ensures SameWorld(Run(cfg, datagrams), Run(cfg, datagrams + [d]))
  {
    var s := Run(cfg, datagrams);
    var moves := Moves(s, cfg, d);
    OnlyHandshakesSync(s, cfg, d);
    StepIsMoves(s, cfg, d);
    forall t: Server, m: Move | SameWorld(s, t) && !m.Synchronise? && Enabled(t, m)
      ensures SameWorld(s, Apply(t, cfg, m))
    {
      MoveStartsNoWorld(s, t, cfg, m);
    }
    MovesKeep(s, cfg, moves, |moves|, t => SameWorld(s, t), (m: Move) => !m.Synchronise?);
    assert moves[..|moves|] == moves && (datagrams + [d])[..|datagrams|] == datagrams;
  }
}
