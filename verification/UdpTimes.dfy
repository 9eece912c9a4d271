/** The rest of what a turn does when it is due: the start of the mission, the tick, the mission's result,
    and the answer
    to whatever arrives. */
module UdpTimes {
  import opened Bytes
  import opened UdpMessages
  import opened UdpProtocol
  import opened UdpCombat
  import opened UdpPeer
  import opened UdpRuns
  import opened UdpMoments
  import opened UdpSessionRuns
  import opened UdpTurns

  // ---------------------------------------------------------------- the clock

  /** Whole milliseconds since the sync, as far as 32 bits reach. */
  predicate IsElapsed(ms: u32, a: Assignment, now: nat) {
    if a.syncSentAt == 0 || now < a.syncSentAt then ms == 0
    else
      var ns := now - a.syncSentAt;
      1_000_000 * ms as int <= ns && (ms < 0xFFFF_FFFF ==> ns < 1_000_000 * (ms as int + 1))
  }

  lemma ElapsedIs(a: Assignment, now: nat)
    ensures IsElapsed(ElapsedMs(a, now), a, now)
  {
  }

  /** The time limit of the mission has passed. */
  predicate IsOver(a: Assignment, now: nat) {
    a.syncSentAt != 0 && now >= a.syncSentAt + 1_000_000 * a.durationMs as int
  }

  lemma OverIsElapsed(a: Assignment, now: nat)
    requires a.durationMs > 0
    ensures IsOver(a, now) <==> a.syncSentAt != 0 && ElapsedMs(a, now) >= a.durationMs
    ensures RemainingMs(a, now) as int == Max(0, a.durationMs as int - ElapsedMs(a, now) as int)
  {
  }

  // ---------------------------------------------------------------- the start of the mission

  predicate IsStatOf(m: Message, id: u16, e: CombatEntity) { m == StatUpdate(id, e.life, e.maxLife, e.spirit) }

  /** One stat update for each of these entities, in this order. */
  ghost predicate AreStatsOf(messages: seq<Message>, c: Combat, ids: seq<u16>) {
    |messages| == |ids| && forall i :: 0 <= i < |ids| ==>
        ids[i] in c.entities && IsStatOf(messages[i], ids[i], c.entities[ids[i]])
  }

  lemma {:induction false} StatMessagesAre(c: Combat, ids: seq<u16>)
    requires forall id <- ids :: id in c.entities
    ensures AreStatsOf(StatMessages(c, ids), c, ids)
  {
    if ids != [] {
      var later := StatMessages(c, ids[1..]);
      StatMessagesAre(c, ids[1..]);
      assert StatMessages(c, ids) == [Stat(ids[0], c.entities[ids[0]]).message] + later;
      forall i | 0 <= i < |ids|
        ensures ids[i] in c.entities && IsStatOf(StatMessages(c, ids)[i], ids[i], c.entities[ids[i]])
      {
        if i > 0 { assert ids[i] == ids[1..][i - 1]; }
      }
    }
  }

  lemma StatsBlockIs(c: Combat, cfg: Config) returns (ids: seq<u16>, stats: seq<Message>)
    requires ValidConfig(cfg)
    ensures Enumerates(ids, c.entities.Keys) && AreStatsOf(stats, c, ids)
    ensures StatsBlock(c, cfg) == [StatUpdate(c.playerId, c.player.life, c.player.maxLife, c.player.spirit)] + stats
  {
    ids := cfg.order(c.entities);
    assert Enumerates(cfg.order(c.entities), c.entities.Keys);
    stats := StatMessages(c, ids);
    StatMessagesAre(c, ids);
  }

  lemma WhenStarting(s: Server, cfg: NativeConfig, d: Datagram)
    ensures StartsNow(s, cfg, d) <==>
              cfg.gameplaySync && IsReady(d) && s.peer.progress.sentSync && !s.peer.progress.sentElapsed
  {
  }

  /** The mission starts with the first packet that says the client is ready after the sync, and with no other. */
  lemma StartsExactlyWhen(cfg: NativeConfig, datagrams: seq<Datagram>, d: Datagram)
    ensures var p, q := Run(cfg, datagrams).peer.progress, Run(cfg, datagrams + [d]).peer.progress;
            q.sentElapsed <==> p.sentElapsed || (cfg.gameplaySync && IsReady(d) && p.sentSync)
  {
    var s := Run(cfg, datagrams);
    assert (datagrams + [d])[..|datagrams|] == datagrams;
    WhenStarting(s, cfg, d);
    PulseIsQuiet(Served(s, cfg, d), cfg, d.now);
    if s.peer.progress.sentElapsed { StaysStarted(s, cfg, d); }
    else if StartsNow(s, cfg, d) { ReadyStarts(s, cfg, d); }
    else { OthersDoNotStart(s, cfg, d); }
  }

  lemma StaysStarted(s: Server, cfg: NativeConfig, d: Datagram)
    requires s.peer.progress.sentElapsed
    ensures Served(s, cfg, d).peer.progress.sentElapsed
  {
    ServedSendsNoTick(s, cfg, d);
  }

  lemma ReadyStarts(s: Server, cfg: NativeConfig, d: Datagram)
    requires StartsNow(s, cfg, d)
    ensures Served(s, cfg, d).peer.progress.sentElapsed
  {
    var updated, events, acked, sync, synced, start := StagesOf(s, cfg, d);
    StartIsOnRecord(synced, cfg, d.now);
  }

  lemma StartIsOnRecord(s: Server, cfg: Config, now: nat)
    ensures StartElapsedPhase(s, cfg, now).peer.progress.sentElapsed
  {
  }

  /** When the mission starts the client is sent the player's stats, those of every entity once, and the time that has
      passed since the sync; nothing else is reliable. */
  lemma StartTells(cfg: NativeConfig, datagrams: seq<Datagram>, d: Datagram)
    returns (ids: seq<u16>, stats: seq<Message>, ms: u32)
    requires ValidConfig(cfg) && cfg.gameplaySync && IsReady(d)
    requires var p := Run(cfg, datagrams).peer.progress; p.sentSync && !p.sentElapsed
    ensures var s, t := Run(cfg, datagrams), Run(cfg, datagrams + [d]); var c := s.peer.combat;
            && t.peer.combat == c && Enumerates(ids, c.entities.Keys) && AreStatsOf(stats, c, ids)
            && IsElapsed(ms, s.peer.assignment, d.now)
            && Reliables(t.sent) == Reliables(s.sent) +
                                    [StatUpdate(c.playerId, c.player.life, c.player.maxLife, c.player.spirit)] + stats +
                                    [StartElapsed(ms)]
  {
    var s := Run(cfg, datagrams);
    StartsExactlyWhen(cfg, datagrams, d);
    ids, stats := StatsBlockIs(s.peer.combat, cfg);
    ms := StatsPrecedeStart(cfg, datagrams, d);
    ElapsedIs(s.peer.assignment, d.now);
    Regroup(Reliables(s.sent), [Stat(s.peer.combat.playerId, s.peer.combat.player).message], stats);
  }

  // ---------------------------------------------------------------- the tick and the result

  /** A mission of a known client is on. */
  predicate IsOn(a: Assignment) { a.clientId > 0 && (a.rule != 0 || a.scene != []) }

  predicate FallenObjective(e: CombatEntity) { e.category == 2 && e.life == 0 && e.maxLife != 0 }

  /** The player or an objective has no life left. */
  ghost predicate SomebodyFell(c: Combat) {
    (c.player.life == 0 && c.player.maxLife != 0) || exists id <- c.entities :: FallenObjective(c.entities[id])
  }

  /** The mission is decided now, this way, and the result is queued if anybody wants to know; or nothing happens. */
  ghost predicate Decides(s: Server, t: Server, cfg: Config, decided: bool, success: bool, delayMs: nat) {
    var a := s.peer.assignment;
    && t.peer.progress.resultSent == (s.peer.progress.resultSent || decided)
    && t.results == s.results + (if decided && cfg.hasCallback
                                 then [MissionResult(a.clientId, a.rule, a.scene, success, delayMs)] else [])
  }

  lemma FellIsDown(c: Combat)
    ensures SomebodyFell(c) <==> PlayerDown(c) || ObjectiveDown(c)
  {
    if ObjectiveDown(c) {
      var id :| id in c.entities && IsDown(c.entities[id]);
      assert FallenObjective(c.entities[id]);
    }
  }

  lemma CheckDecides(s: Server, cfg: Config, now: nat, allow: bool)
    ensures var p, a, t := s.peer.progress, s.peer.assignment, CheckTerminal(s, cfg, now, allow);
            var open := cfg.gameplaySync && !p.resultSent && IsOn(a);
            if open && allow && a.durationMs > 0 && IsOver(a, now) then Decides(s, t, cfg, true, true, 500)
            else Decides(s, t, cfg, open && SomebodyFell(s.peer.combat), false, 2000)
  {
    FellIsDown(s.peer.combat);
    if s.peer.assignment.durationMs > 0 { OverIsElapsed(s.peer.assignment, now); }
    assert s.results + [] == s.results;
  }

  /** Whenever a combat packet leaves the player or an objective without life, an undecided mission fails at once, and
      it is reported after two seconds; otherwise the packet decides nothing. */
  lemma FallDecides(cfg: NativeConfig, datagrams: seq<Datagram>, d: Datagram, k: nat, packet: DecodedPacket)
    requires k < |Moves(Run(cfg, datagrams), cfg, d)|
    requires Moves(Run(cfg, datagrams), cfg, d)[k] == Event(packet, d.now)
    ensures var s, t := Midway(cfg, datagrams, d, k), Midway(cfg, datagrams, d, k + 1);
            Decides(s, t, cfg,
                    cfg.gameplaySync && !s.peer.progress.resultSent && IsOn(s.peer.assignment) &&
                    SomebodyFell(t.peer.combat), false, 2000)
  {
    MidwayNext(cfg, datagrams, d, k);
    EventDecides(Midway(cfg, datagrams, d, k), cfg, packet, d.now);
  }

  lemma EventDecides(s: Server, cfg: NativeConfig, packet: DecodedPacket, now: nat)
    ensures var t := HandlePacket(s, cfg, packet, now);
            Decides(s, t, cfg,
                    cfg.gameplaySync && !s.peer.progress.resultSent && IsOn(s.peer.assignment) &&
                    SomebodyFell(t.peer.combat), false, 2000)
  {
    HandledViews(s, cfg, packet, 0, ThePlayer);
    var h := if cfg.gameplaySync then Handled(s, cfg, packet) else s;
    CheckDecides(h, cfg, now, false);
    CheckTerminalOnlyQueues(h, cfg, now, false);
  }

  /** The state a turn leaves before its pulse. */
  function Before(cfg: Config, datagrams: seq<Datagram>, d: Datagram): Server
    requires d.arrival != Dropped
  {
    Midway(cfg, datagrams, d, |Moves(Run(cfg, datagrams), cfg, d)| - 1)
  }

  lemma BeforeIsServed(cfg: Config, datagrams: seq<Datagram>, d: Datagram)
    requires d.arrival != Dropped
    ensures Before(cfg, datagrams, d) == Served(Run(cfg, datagrams), cfg, d)
    ensures Run(cfg, datagrams + [d]) == Tick(Before(cfg, datagrams, d), cfg, d.now)
  {
    var s := Run(cfg, datagrams);
    var moves := ServeMoves(s, cfg, d);
    ServedIsMoves(s, cfg, d);
    assert Moves(s, cfg, d)[..|moves|] == moves && (datagrams + [d])[..|datagrams|] == datagrams;
  }

  /** A tick is due in an undecided mission that has started, three seconds after the last one. */
  predicate TickIsDue(s: Server, cfg: Config, now: nat) {
    var p := s.peer.progress;
    && cfg.gameplaySync && p.sentElapsed && !p.resultSent
    && (p.lastTickAt == 0 || now as int - p.lastTickAt as int >= 3_000_000_000)
  }

  /** Every turn whose tick is due ends with one: it tells the milliseconds that have passed and those that are left. A
      mission whose time is over then succeeds, reported after half a second; one in which somebody fell fails. A turn
      whose tick is not due ends there. */
  lemma TickWhenDue(cfg: Config, datagrams: seq<Datagram>, d: Datagram) returns (elapsed: u32, left: u32)
    requires d.arrival != Dropped
    ensures var s, t := Before(cfg, datagrams, d), Run(cfg, datagrams + [d]); var a := s.peer.assignment;
            if !TickIsDue(s, cfg, d.now) then t == s
            else
              && t.sent == s.sent + [Framed(Unsequenced, 0, GameStateTick(elapsed, left))]
              && IsElapsed(elapsed, a, d.now) && left as int == Max(0, a.durationMs as int - elapsed as int)
              && t.peer.progress.lastTickAt == d.now
              && if IsOn(a) && a.durationMs > 0 && IsOver(a, d.now) then Decides(s, t, cfg, true, true, 500)
                 else Decides(s, t, cfg, IsOn(a) && SomebodyFell(s.peer.combat), false, 2000)
  {
    BeforeIsServed(cfg, datagrams, d);
    elapsed, left := TickTells(Before(cfg, datagrams, d), cfg, d.now);
  }

  lemma TickTells(s: Server, cfg: Config, now: nat) returns (elapsed: u32, left: u32)
    ensures var t := Tick(s, cfg, now); var a := s.peer.assignment;
            if !TickIsDue(s, cfg, now) then t == s
            else
              && t.sent == s.sent + [Framed(Unsequenced, 0, GameStateTick(elapsed, left))]
              && IsElapsed(elapsed, a, now) && left as int == Max(0, a.durationMs as int - elapsed as int)
              && t.peer.progress.lastTickAt == now
              && if IsOn(a) && a.durationMs > 0 && IsOver(a, now) then Decides(s, t, cfg, true, true, 500)
                 else Decides(s, t, cfg, IsOn(a) && SomebodyFell(s.peer.combat), false, 2000)
  {
    var a := s.peer.assignment;
    elapsed, left := ElapsedMs(a, now), RemainingMs(a, now);
    ElapsedIs(a, now);
    if a.durationMs > 0 { OverIsElapsed(a, now); }
    var u := SendTick(s, now);
    CheckDecides(u, cfg, now, TimeIsUp(a, now));
    CheckTerminalOnlyQueues(u, cfg, now, TimeIsUp(a, now));
  }

  // ---------------------------------------------------------------- answers

  predicate IsRequest(packet: DecodedPacket) { packet.opcode == 0x02 && |packet.payload| == 4 }

  function CountRequests(packets: seq<DecodedPacket>): nat {
    if packets == [] then 0 else (if IsRequest(packets[0]) then 1 else 0) + CountRequests(packets[1..])
  }

  /** So many answers to the question which packet is the current one. */
  function Replies(n: nat): seq<Sent> { seq(n, i => Framed(Unsequenced, 0, CurrentPacket(0))) }

  lemma {:induction false} RequestsAnswered(s: Server, packets: seq<DecodedPacket>)
    ensures var t := AnswerRequests(s, packets);
            t == s.(sent := t.sent) && t.sent == s.sent + Replies(CountRequests(packets))
    decreases packets
  {
    if packets == [] {
      assert s.sent + Replies(0) == s.sent;
    } else {
      var n, u := CountRequests(packets[1..]), if IsRequest(packets[0]) then Send(s, Unsequenced, CurrentPacket(0))
        else s;
      RequestsAnswered(u, packets[1..]);
      if IsRequest(packets[0]) {
        assert [Framed(Unsequenced, 0, CurrentPacket(0))] + Replies(n) == Replies(n + 1);
        Regroup(s.sent, [Framed(Unsequenced, 0, CurrentPacket(0))], Replies(n));
      }
    }
  }

  /** Every arrival is answered: each request by a reply, a stream of packets and a reliable packet, whether or not it
      could be decoded, by the acknowledgement of their sequence base, and a probe by its own word; what is unknown
      is left alone. */
  lemma ArrivalsAreAnswered(cfg: Config, datagrams: seq<Datagram>, d: Datagram)
    requires d.arrival != Dropped
    ensures var s, t := Run(cfg, datagrams), Before(cfg, datagrams, d);
            match d.arrival
            case Requests(packets) =>
              t == s.(sent := s.sent + Replies(if cfg.gameplaySync then CountRequests(packets) else 0))
            case Stream(base, _) => |t.sent| > |s.sent| && t.sent[|t.sent| - 1] == Reply(Acknowledgement(base, 4))
            case Single(base, _) => exists i :: |s.sent| <= i < |t.sent| && t.sent[i] == Reply(Acknowledgement(base, 5))
            case Probe(word) => t == s.(sent := s.sent + [Reply(ProbeAnswer(word))])
            case _ => t == s
  {
    var s := Run(cfg, datagrams);
    BeforeIsServed(cfg, datagrams, d);
    match d.arrival {
      case Requests(packets) =>
        RequestsAnswered(s, packets);
        assert s.sent + Replies(0) == s.sent;
      case Stream(_, packets) => PacketsOnlyAppend(s, cfg, packets, d.now);
      case Single(_, _) => var i := SingleIsAcknowledged(s, cfg, d);
      case _ =>
    }
  }

  lemma {:induction false} PacketsOnlyAppend(s: Server, cfg: Config, packets: seq<DecodedPacket>, now: nat)
    ensures s.sent <= HandlePackets(s, cfg, packets, now).sent
    decreases packets
  {
    if packets != [] {
      EventAppends(s, cfg, packets[0], now, m => true);
      PacketsOnlyAppend(HandlePacket(s, cfg, packets[0], now), cfg, packets[1..], now);
    }
  }

  lemma SingleIsAcknowledged(s: Server, cfg: Config, d: Datagram) returns (i: nat)
    requires d.arrival.Single?
    ensures |s.sent| <= i < |Served(s, cfg, d).sent| &&
            Served(s, cfg, d).sent[i] == Reply(Acknowledgement(d.arrival.base, 5))
  {
    var updated, events, acked, sync, synced, start := StagesOf(s, cfg, d);
    PacketsOnlyAppend(updated, cfg, events, d.now);
    i := |acked.sent| - 1;
    if sync { SyncAppends(acked, cfg, d.context, d.now, m => true); }
    if start { BeginAppends(synced, cfg, d.now, m => true); }
  }

  lemma {:induction false} PacketsKeepLink(s: Server, cfg: Config, packets: seq<DecodedPacket>, now: nat)
    ensures HandlePackets(s, cfg, packets, now).peer.link == s.peer.link
    decreases packets
  {
    if packets != [] {
      HandledViews(s, cfg, packets[0], 0, ThePlayer);
      CheckTerminalOnlyQueues(if cfg.gameplaySync then Handled(s, cfg, packets[0]) else s, cfg, now, false);
      PacketsKeepLink(HandlePacket(s, cfg, packets[0], now), cfg, packets[1..], now);
    }
  }

  lemma PulseKeepsLink(s: Server, cfg: Config, now: nat)
    ensures Tick(s, cfg, now).peer.link == s.peer.link
  {
    CheckTerminalOnlyQueues(SendTick(s, now), cfg, now, TimeIsUp(s.peer.assignment, now));
  }

  /** The fields after a reliable packet and whatever it made due. */
  function LinkAfter(p: Peer, d: Datagram, starting: bool): Link
    requires d.arrival.Single?
  {
    var was, base := p.link, d.arrival.base;
    if d.arrival.decoded == None then was
    else if IsHandshake(d) then
      var payload := d.arrival.decoded.value.payload;
      Link(base, if p.progress.sentSync then BootstrapAccepted else InitialSyncSent, true, DoubleWordAt(payload, 0),
           DoubleWordAt(payload, 4), WordAt(payload, 8))
    else
      was.(lastClientReliable := base,
           session := if IsReady(d) then if starting then ElapsedSent else ClientReady
                      else if d.arrival.decoded.value.checksumOk && d.arrival.decoded.value.opcode == 0x0a then Started
                      else was.session)
  }

  lemma SingleLink(s: Server, cfg: NativeConfig, d: Datagram) returns (t: Server)
    requires d.arrival.Single?
    ensures t == Served(s, cfg, d) && t.peer.link == LinkAfter(s.peer, d, StartsNow(s, cfg, d))
  {
    t := Served(s, cfg, d);
    var updated, events, acked, sync, synced, start := StagesOf(s, cfg, d);
    PacketsKeepLink(updated, cfg, events, d.now);
    if sync { var w := SyncSendsWorld(acked, cfg, d.context, d.now); }
    if start { StartKeepsLink(synced, cfg, d.now); }
  }

  lemma StartKeepsLink(s: Server, cfg: Config, now: nat)
    ensures StartElapsedPhase(s, cfg, now).peer.link == s.peer.link.(session := ElapsedSent)
  {
    var packets := StatsViews(s, cfg, 0, ThePlayer);
    var u, ms := BeginViews(s, cfg, now, 0, ThePlayer);
  }

  /** The session fields after a turn. */
  lemma SessionFields(cfg: NativeConfig, datagrams: seq<Datagram>, d: Datagram)
    ensures var p, link := Run(cfg, datagrams).peer, Run(cfg, datagrams + [d]).peer.link;
            if !d.arrival.Single? then link == p.link
            else
              link == LinkAfter(p, d, cfg.gameplaySync && IsReady(d) && p.progress.sentSync && !p.progress.sentElapsed)
  {
    var s := Run(cfg, datagrams);
    assert (datagrams + [d])[..|datagrams|] == datagrams;
    PulseKeepsLink(Served(s, cfg, d), cfg, d.now);
    WhenStarting(s, cfg, d);
    match d.arrival {
      case Requests(packets) => RequestsAnswered(s, packets);
      case Stream(_, packets) => PacketsKeepLink(s, cfg, packets, d.now);
      case Single(_, _) => var t := SingleLink(s, cfg, d);
      case _ =>
    }
  }
}
