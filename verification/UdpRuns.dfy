/** Runs of one UDP peer as small moves, and what every reachable state keeps: sequence numbers and mission
    results. */
module UdpRuns {
  import opened Bytes
  import opened UdpMessages
  import opened UdpProtocol
  import opened UdpCombat
  import opened UdpPeer

  // ---------------------------------------------------------------- views of the frames sent

  /** The reliable messages, in order. */
  function Reliables(sent: seq<Sent>): seq<Message> {
    if sent == [] then []
    else
      var n := |sent| - 1;
      Reliables(sent[..n]) + (if sent[n].Framed? && sent[n].channel == Reliable then [sent[n].message] else [])
  }

  /** The sequence bases on a channel, in order. */
  function Bases(sent: seq<Sent>, channel: Channel): seq<u16> {
    if sent == [] then []
    else
      var n := |sent| - 1;
      Bases(sent[..n], channel) + (if sent[n].Framed? && sent[n].channel == channel then [sent[n].base] else [])
  }

  predicate IsSessionPacket(channel: Channel, m: Message) {
    channel == Reliable && Opcode(m) in {0x02, 0x23, 0x03, 0x04, 0x05}
  }

  /** The opcodes of the session packets among the reliable frames, combat stats left out. */
  function SessionOps(sent: seq<Sent>): seq<byte> {
    if sent == [] then []
    else
      var n := |sent| - 1;
      SessionOps(sent[..n]) +
      (if sent[n].Framed? && IsSessionPacket(sent[n].channel, sent[n].message) then [Opcode(sent[n].message)] else [])
  }

  /** What a client that replays the stat updates holds for an object. */
  function Shown(sent: seq<Sent>, id: u16): Option<Message> {
    if sent == [] then None
    else
      var f := sent[|sent| - 1];
      if f.Framed? && f.message.StatUpdate? && f.message.id == id then Some(f.message)
      else Shown(sent[..|sent| - 1], id)
  }

  /** The damage all hit relations so far name a victim for, and how many there are. */
  function Damage(sent: seq<Sent>, v: Victim): nat {
    if sent == [] then 0
    else
      var f := sent[|sent| - 1];
      Damage(sent[..|sent| - 1], v) + (if f.Framed? then MessageDamage(f.message, DEFAULT_PLAYER, v) else 0)
  }

  function Hits(sent: seq<Sent>, v: Victim): nat {
    if sent == [] then 0
    else
      var f := sent[|sent| - 1];
      Hits(sent[..|sent| - 1], v) + (if f.Framed? then MessageHits(f.message, DEFAULT_PLAYER, v) else 0)
  }

  // ---------------------------------------------------------------- how sending changes the views

  /** Nothing has changed but the frames sent and the sequence counters. */
  predicate OnlySent(s: Server, t: Server) {
    && t.peer == s.peer.(counters := t.peer.counters)
    && t.results == s.results && t.accepted == s.accepted
  }

  lemma SendViews(s: Server, channel: Channel, m: Message, id: u16, v: Victim)
    ensures var t := Send(s, channel, m);
            && OnlySent(s, t)
            && Reliables(t.sent) == Reliables(s.sent) + (if Sendable(m) && channel == Reliable then [m] else [])
            && SessionOps(t.sent) ==
                 SessionOps(s.sent) + (if Sendable(m) && IsSessionPacket(channel, m) then [Opcode(m)] else [])
            && Shown(t.sent, id) == (if m.StatUpdate? && m.id == id then Some(m) else Shown(s.sent, id))
            && Damage(t.sent, v) == Damage(s.sent, v) + MessageDamage(m, DEFAULT_PLAYER, v)
            && Hits(t.sent, v) == Hits(s.sent, v) + MessageHits(m, DEFAULT_PLAYER, v)
  {
    var t := Send(s, channel, m);
    if Sendable(m) { assert t.sent[..|s.sent|] == s.sent; }
  }

  /** The reliable messages that get through among these packets, and the session opcodes among them. */
  function Arriving(packets: seq<Outgoing>): seq<Message> {
    if packets == [] then []
    else (if Sendable(packets[0].message) && packets[0].channel == Reliable then [packets[0].message] else []) +
         Arriving(packets[1..])
  }

  function OpsOf(packets: seq<Outgoing>): seq<byte> {
    if packets == [] then []
    else
      var p := packets[0];
      (if Sendable(p.message) && IsSessionPacket(p.channel, p.message) then [Opcode(p.message)] else []) +
      OpsOf(packets[1..])
  }

  /** Packets reach the views as their own reports say. */
  lemma {:induction false} SendAllViews(s: Server, packets: seq<Outgoing>, id: u16, v: Victim)
    ensures var t := SendAll(s, packets);
            && OnlySent(s, t)
            && Reliables(t.sent) == Reliables(s.sent) + Arriving(packets)
            && SessionOps(t.sent) == SessionOps(s.sent) + OpsOf(packets)
            && Shown(t.sent, id) == (if LastStat(packets, id).Some? then LastStat(packets, id) else Shown(s.sent, id))
            && Damage(t.sent, v) == Damage(s.sent, v) + DamageTo(packets, DEFAULT_PLAYER, v)
            && Hits(t.sent, v) == Hits(s.sent, v) + HitsOn(packets, DEFAULT_PLAYER, v)
    decreases packets
  {
    if packets == [] {
      assert Reliables(s.sent) + [] == Reliables(s.sent) && SessionOps(s.sent) + [] == SessionOps(s.sent);
    } else {
      var p, t := packets[0], Send(s, packets[0].channel, packets[0].message);
      SendViews(s, p.channel, p.message, id, v);
      SendAllViews(t, packets[1..], id, v);
      var later := Arriving(packets[1..]);
      Regroup(Reliables(s.sent), Arriving(packets)[..|Arriving(packets)| - |later|], later);
      Regroup(SessionOps(s.sent), OpsOf(packets)[..|OpsOf(packets)| - |OpsOf(packets[1..])|], OpsOf(packets[1..]));
    }
  }

  /** Every frame in the record was there before or is a sendable packet of the list. */
  lemma {:induction false} SendAllFrames(s: Server, packets: seq<Outgoing>)
    ensures forall f <- SendAll(s, packets).sent ::
              f in s.sent || (f.Framed? && Sendable(f.message) && Outgoing(f.channel, f.message) in packets)
    decreases packets
  {
    if packets != [] { SendAllFrames(Send(s, packets[0].channel, packets[0].message), packets[1..]); }
  }

  function OnReliable(messages: seq<Message>): seq<Outgoing> {
    seq(|messages|, i requires 0 <= i < |messages| => Outgoing(Reliable, messages[i]))
  }

  lemma {:induction false} SendMessagesIsSendAll(s: Server, messages: seq<Message>)
    ensures SendMessages(s, messages) == SendAll(s, OnReliable(messages))
    decreases messages
  {
    if messages != [] {
      SendMessagesIsSendAll(Send(s, Reliable, messages[0]), messages[1..]);
      assert OnReliable(messages)[1..] == OnReliable(messages[1..]);
    }
  }

  // ---------------------------------------------------------------- a datagram as a list of moves

  /** What a datagram makes the server do, one thing at a time. */
  datatype Move =
    | Update(link: Link)
    | Event(packet: DecodedPacket, eventAt: nat)
    | Answer
    | Acknowledge(reply: TransportReply)
    | Synchronise(context: Option<SyncContext>, syncAt: nat)
    | Begin(beginAt: nat)
    | Pulse(pulseAt: nat)

  /** An update touches the session fields; the world starts once, and the mission once after it. */
  predicate Enabled(s: Server, m: Move) {
    match m
    case Synchronise(_, _) => !s.peer.progress.sentSync
    case Begin(_) => s.peer.progress.sentSync && !s.peer.progress.sentElapsed
    case _ => true
  }

  function Apply(s: Server, cfg: Config, m: Move): Server {
    match m
    case Update(link) => s.(peer := s.peer.(link := link))
    case Event(packet, now) => HandlePacket(s, cfg, packet, now)
    case Answer => Send(s, Unsequenced, CurrentPacket(0))
    case Acknowledge(reply) => SendReply(s, reply)
    case Synchronise(context, now) => InitialSync(s, cfg, context, now)
    case Begin(now) => StartElapsedPhase(s, cfg, now)
    case Pulse(now) => Tick(s, cfg, now)
  }

  function ApplyAll(s: Server, cfg: Config, moves: seq<Move>): Server
    decreases moves
  {
    if moves == [] then s else ApplyAll(Apply(s, cfg, moves[0]), cfg, moves[1..])
  }

  predicate AllEnabled(s: Server, cfg: Config, moves: seq<Move>)
    decreases moves
  {
    moves == [] || (Enabled(s, moves[0]) && AllEnabled(Apply(s, cfg, moves[0]), cfg, moves[1..]))
  }

  /** The inner packets a datagram hands to the combat handler. */
  function CombatPackets(d: Datagram): seq<DecodedPacket> {
    match d.arrival
    case Stream(_, packets) => packets
    case Single(_, decoded) => if decoded.Some? && decoded.value.checksumOk then [decoded.value] else []
    case _ => []
  }

  function Events(packets: seq<DecodedPacket>, now: nat): seq<Move> {
    if packets == [] then [] else [Event(packets[0], now)] + Events(packets[1..], now)
  }

  function Answers(packets: seq<DecodedPacket>): seq<Move> {
    if packets == [] then []
    else (if packets[0].opcode == 0x02 && |packets[0].payload| == 4 then [Answer] else []) + Answers(packets[1..])
  }

  /** A sync and a start are never due at once. */
  function Due(sync: bool, start: bool, d: Datagram): seq<Move> {
    if sync then [Synchronise(d.context, d.now)] else if start then [Begin(d.now)] else []
  }

  function ReliableMoves(s: Server, cfg: Config, d: Datagram): seq<Move>
    requires d.arrival.Single?
  {
    var stages := ReliablePhases(s, cfg, d);
    [Update(stages.updated.peer.link)] + Events(CombatPackets(d), d.now) +
        [Acknowledge(Acknowledgement(d.arrival.base, 5))] +
    Due(stages.wantsSync, stages.wantsStart, d)
  }

  /** The moves that serve a datagram. The pulse at the end of the turn comes after them. */
  function ServeMoves(s: Server, cfg: Config, d: Datagram): seq<Move> {
    match d.arrival
    case Requests(packets) => if cfg.gameplaySync then Answers(packets) else []
    case Stream(base, packets) => Events(packets, d.now) + [Acknowledge(Acknowledgement(base, 4))]
    case Single(_, _) => ReliableMoves(s, cfg, d)
    case Probe(word) => [Acknowledge(ProbeAnswer(word))]
    case _ => []
  }

  function Moves(s: Server, cfg: Config, d: Datagram): seq<Move> {
    if d.arrival == Dropped then [] else ServeMoves(s, cfg, d) + [Pulse(d.now)]
  }

  /** Rules of combat whose outcomes are all lawful. */
  ghost predicate Fair(rules: Rules) {
    forall c: Combat, packet: DecodedPacket :: Lawful(c, rules(c, packet))
  }

  lemma NativeRulesAreFair(cfg: NativeConfig)
    ensures Fair(cfg.rules)
  {
    forall c: Combat, packet: DecodedPacket ensures Lawful(c, cfg.rules(c, packet)) { HandleIsLawful(c, packet); }
  }

  predicate OnlyLatched(p: Peer, q: Peer) { q == p.(progress := p.progress.(resultSent := q.progress.resultSent)) }

  lemma CheckTerminalOnlyQueues(s: Server, cfg: Config, now: nat, allow: bool)
    ensures var t := CheckTerminal(s, cfg, now, allow);
            t.sent == s.sent && t.accepted == s.accepted && OnlyLatched(s.peer, t.peer)
  {
  }

  /** The server right after the combat handler, its packets sent and the mission not yet checked. */
  function Handled(s: Server, cfg: Config, packet: DecodedPacket): Server {
    var o := cfg.rules(s.peer.combat, packet);
    SendAll(s.(peer := s.peer.(combat := o.combat), accepted := s.accepted + o.accepted), o.packets)
  }

  /** What a combat packet does, with the views of the packets it sends. */
  lemma HandledViews(s: Server, cfg: Config, packet: DecodedPacket, id: u16, v: Victim)
    ensures var t, o := Handled(s, cfg, packet), cfg.rules(s.peer.combat, packet);
            && OnlySent(s.(peer := s.peer.(combat := o.combat), accepted := s.accepted + o.accepted), t)
            && SessionOps(t.sent) == SessionOps(s.sent) + OpsOf(o.packets)
            && Shown(t.sent, id) ==
                 (if LastStat(o.packets, id).Some? then LastStat(o.packets, id) else Shown(s.sent, id))
            && Damage(t.sent, v) == Damage(s.sent, v) + DamageTo(o.packets, DEFAULT_PLAYER, v)
            && Hits(t.sent, v) == Hits(s.sent, v) + HitsOn(o.packets, DEFAULT_PLAYER, v)
  {
    var o := cfg.rules(s.peer.combat, packet);
    SendAllViews(s.(peer := s.peer.(combat := o.combat), accepted := s.accepted + o.accepted), o.packets, id, v);
  }

  lemma EventKeepsProgress(s: Server, cfg: Config, packet: DecodedPacket, now: nat)
    ensures var q := HandlePacket(s, cfg, packet, now).peer.progress;
            q == s.peer.progress.(resultSent := q.resultSent)
  {
    HandledViews(s, cfg, packet, 0, ThePlayer);
    CheckTerminalOnlyQueues(Handled(s, cfg, packet), cfg, now, false);
    CheckTerminalOnlyQueues(s, cfg, now, false);
  }

  lemma {:induction false} EventsAreMoves(s: Server, cfg: Config, packets: seq<DecodedPacket>, now: nat)
    ensures var moves := Events(packets, now);
            ApplyAll(s, cfg, moves) == HandlePackets(s, cfg, packets, now) && AllEnabled(s, cfg, moves)
    ensures forall m <- Events(packets, now) :: m.Event? && m.packet in packets
    decreases packets
  {
    if packets != [] { EventsAreMoves(HandlePacket(s, cfg, packets[0], now), cfg, packets[1..], now); }
  }

  lemma {:induction false} AnswersAreMoves(s: Server, cfg: Config, packets: seq<DecodedPacket>)
    ensures var moves := Answers(packets);
            ApplyAll(s, cfg, moves) == AnswerRequests(s, packets) && AllEnabled(s, cfg, moves)
    ensures forall m <- Answers(packets) :: m.Answer?
    decreases packets
  {
    if packets != [] {
      var wanted := packets[0].opcode == 0x02 && |packets[0].payload| == 4;
      AnswersAreMoves(if wanted then Send(s, Unsequenced, CurrentPacket(0)) else s, cfg, packets[1..]);
      if !wanted { assert Answers(packets) == Answers(packets[1..]); }
    }
  }

  /** The stages of a reliable datagram, without the functions that build them. */
  lemma StagesOf(s: Server, cfg: Config, d: Datagram)
    returns (updated: Server, events: seq<DecodedPacket>, acked: Server, sync: bool, synced: Server, start: bool)
    requires d.arrival.Single?
    ensures var stages := ReliablePhases(s, cfg, d);
            stages.updated == updated && stages.wantsSync == sync && stages.wantsStart == start
    ensures updated == s.(peer := s.peer.(link := updated.peer.link))
    ensures events == CombatPackets(d) && |events| <= 1
    ensures acked == SendReply(HandlePackets(updated, cfg, events, d.now), Acknowledgement(d.arrival.base, 5))
    ensures sync ==> !s.peer.progress.sentSync && !start
    ensures start ==>
              s.peer.progress.sentSync && !s.peer.progress.sentElapsed && |events| == 1 && events[0].payload == []
    ensures synced == if sync then InitialSync(acked, cfg, d.context, d.now) else acked
    ensures ReliablePhase(s, cfg, d) == if start then StartElapsedPhase(synced, cfg, d.now) else synced
  {
    var stages := ReliablePhases(s, cfg, d);
    updated, events, acked, sync := stages.updated, CombatPackets(d), stages.acked, stages.wantsSync;
    synced, start := stages.synced, stages.wantsStart;
    var handled := HandlePackets(updated, cfg, events, d.now);
    assert HandlePackets(handled, cfg, [], d.now) == handled;
  }

  /** A move after others. */
  lemma {:induction false} Then(s: Server, cfg: Config, moves: seq<Move>, m: Move)
    requires AllEnabled(s, cfg, moves) && Enabled(ApplyAll(s, cfg, moves), m)
    ensures AllEnabled(s, cfg, moves + [m])
    ensures ApplyAll(s, cfg, moves + [m]) == Apply(ApplyAll(s, cfg, moves), cfg, m)
    decreases moves
  {
    if moves == [] {
      assert moves + [m] == [m] && [m][1..] == [];
    } else {
      assert (moves + [m])[1..] == moves[1..] + [m];
      Then(Apply(s, cfg, moves[0]), cfg, moves[1..], m);
    }
  }

  lemma ReliableAreMoves(s: Server, cfg: Config, d: Datagram)
    requires d.arrival.Single?
    ensures var moves := ReliableMoves(s, cfg, d);
            AllEnabled(s, cfg, moves) && ApplyAll(s, cfg, moves) == Served(s, cfg, d)
  {
    var ack := Acknowledge(Acknowledgement(d.arrival.base, 5));
    var updated, events, acked, sync, synced, start := StagesOf(s, cfg, d);
    var first := [Update(updated.peer.link)] + Events(events, d.now);
    EventsAreMoves(updated, cfg, events, d.now);
    if events != [] {
      assert events[1..] == [];
      EventKeepsProgress(updated, cfg, events[0], d.now);
    }
    assert first[1..] == Events(events, d.now);
    Then(s, cfg, first, ack);
    if sync { Then(s, cfg, first + [ack], Synchronise(d.context, d.now)); }
    else if start { Then(s, cfg, first + [ack], Begin(d.now)); }
    else { assert first + [ack] + [] == first + [ack]; }
  }

  /** Serving a datagram is making its moves, each of them enabled at its turn. */
  lemma ServedIsMoves(s: Server, cfg: Config, d: Datagram)
    ensures var moves := ServeMoves(s, cfg, d);
            AllEnabled(s, cfg, moves) && ApplyAll(s, cfg, moves) == Served(s, cfg, d)
  {
    match d.arrival {
      case Requests(packets) => AnswersAreMoves(s, cfg, packets);
      case Stream(base, packets) =>
        EventsAreMoves(s, cfg, packets, d.now);
        Then(s, cfg, Events(packets, d.now), Acknowledge(Acknowledgement(base, 4)));
      case Single(_, _) => ReliableAreMoves(s, cfg, d);
      case Probe(word) => assert [Acknowledge(ProbeAnswer(word))][1..] == [];
      case _ =>
    }
  }

  /** A step is the moves of its datagram. */
  lemma StepIsMoves(s: Server, cfg: Config, d: Datagram)
    ensures var moves := Moves(s, cfg, d); AllEnabled(s, cfg, moves) && ApplyAll(s, cfg, moves) == Step(s, cfg, d)
  {
    if d.arrival != Dropped {
      ServedIsMoves(s, cfg, d);
      Then(s, cfg, ServeMoves(s, cfg, d), Pulse(d.now));
    }
  }

  /** The combat events among the moves of a datagram are about its packets. */
  predicate Fits(m: Move, d: Datagram) { m.Event? ==> m.packet in CombatPackets(d) }

  /** The datagram is a client-ready packet that makes the start due. */
  predicate StartsNow(s: Server, cfg: Config, d: Datagram) {
    d.arrival.Single? && ReliablePhases(s, cfg, d).wantsStart
  }

  lemma MovesFit(s: Server, cfg: Config, d: Datagram)
    ensures forall m <- ServeMoves(s, cfg, d) :: Fits(m, d) && !m.Pulse? && (m.Begin? ==> StartsNow(s, cfg, d))
  {
    var events := Events(CombatPackets(d), d.now);
    EventsAreMoves(s, cfg, CombatPackets(d), d.now);
    if d.arrival.Requests? { AnswersAreMoves(s, cfg, d.arrival.requests); }
    forall m | m in ServeMoves(s, cfg, d) && (m.Event? || m.Pulse? || (m.Begin? && !StartsNow(s, cfg, d)))
      ensures m in events
    {
      if d.arrival.Single? {
        var stages := ReliablePhases(s, cfg, d);
        assert m !in Due(stages.wantsSync, stages.wantsStart, d);
      }
    }
  }

  // ---------------------------------------------------------------- the induction principle

  /** Every allowed and enabled move keeps the property. */
  ghost predicate Keeps(cfg: Config, inv: Server -> bool, ok: Move -> bool) {
    forall s: Server, m: Move :: inv(s) && ok(m) && Enabled(s, m) ==> inv(Apply(s, cfg, m))
  }

  lemma {:induction false} MovesKeep(s: Server, cfg: Config, moves: seq<Move>, k: nat, inv: Server -> bool,
                                     ok: Move -> bool)
    requires inv(s) && Keeps(cfg, inv, ok) && AllEnabled(s, cfg, moves) && (forall m <- moves :: ok(m)) && k <= |moves|
    ensures inv(ApplyAll(s, cfg, moves[..k]))
    decreases k
  {
    if k > 0 {
      assert moves[..k][1..] == moves[1..][..k - 1] && moves[0] in moves;
      MovesKeep(Apply(s, cfg, moves[0]), cfg, moves[1..], k - 1, inv, ok);
    }
  }

  /** The state after a list of datagrams and the first k moves of the next one. */
  function Midway(cfg: Config, datagrams: seq<Datagram>, d: Datagram, k: nat): Server
    requires k <= |Moves(Run(cfg, datagrams), cfg, d)|
  {
    ApplyAll(Run(cfg, datagrams), cfg, Moves(Run(cfg, datagrams), cfg, d)[..k])
  }

  ghost predicate AllOk(datagrams: seq<Datagram>, ok: Move -> bool) {
    forall d <- datagrams, m: Move :: Fits(m, d) ==> ok(m)
  }

  /** What a new peer satisfies and every move keeps holds after every run. */
  lemma {:induction false} Always(cfg: Config, datagrams: seq<Datagram>, inv: Server -> bool, ok: Move -> bool)
    requires inv(NEW_SERVER) && Keeps(cfg, inv, ok) && AllOk(datagrams, ok)
    ensures inv(Run(cfg, datagrams))
  {
    if datagrams != [] {
      var n := |datagrams| - 1;
      var d := datagrams[n];
      assert AllOk(datagrams[..n], ok) && AllOk([d], ok);
      Always(cfg, datagrams[..n], inv, ok);
      AlwaysMidway(cfg, datagrams[..n], d, |Moves(Run(cfg, datagrams[..n]), cfg, d)|, inv, ok);
      StepIsMoves(Run(cfg, datagrams[..n]), cfg, d);
      var moves := Moves(Run(cfg, datagrams[..n]), cfg, d);
      assert moves[..|moves|] == moves;
    }
  }

  /** And in the middle of the next datagram. */
  lemma AlwaysMidway(cfg: Config, datagrams: seq<Datagram>, d: Datagram, k: nat, inv: Server -> bool, ok: Move -> bool)
    requires inv(Run(cfg, datagrams)) && Keeps(cfg, inv, ok) && AllOk([d], ok)
    requires k <= |Moves(Run(cfg, datagrams), cfg, d)|
    ensures inv(Midway(cfg, datagrams, d, k))
  {
    var s := Run(cfg, datagrams);
    StepIsMoves(s, cfg, d);
    MovesFit(s, cfg, d);
    assert d in [d];
    MovesKeep(s, cfg, Moves(s, cfg, d), k, inv, ok);
  }

  // ---------------------------------------------------------------- sequence numbers

  ghost predicate Numbered(bases: seq<u16>, next: u16) {
    && next == 8 * |bases| % 0x1_0000
    && forall k :: 0 <= k < |bases| ==> bases[k] == 8 * k % 0x1_0000
  }

  /** Both numbered channels count up by eights, and every frame holds a message that can be encoded. */
  ghost predicate SequencesInv(s: Server) {
    && Numbered(Bases(s.sent, Reliable), s.peer.counters.reliable)
    && Numbered(Bases(s.sent, Sequenced), s.peer.counters.sequenced)
    && forall f <- s.sent :: f.Framed? ==> Sendable(f.message)
  }

  lemma NextBaseNumbers(k: nat)
    ensures NextBase(8 * k % 0x1_0000) == 8 * (k + 1) % 0x1_0000
  {
    var b := 8 * k % 0x1_0000;
    assert b % 8 == 0 by { assert 8 * k == 8 * (0x2000 * (8 * k / 0x1_0000)) + b; }
    assert (b + 8) % 0x1_0000 == 8 * (k + 1) % 0x1_0000;
    var n := (b + 8) % 0x1_0000;
    assert n % 8 == 0;
  }

  lemma SendKeepsSequences(s: Server, channel: Channel, m: Message)
    requires SequencesInv(s)
    ensures SequencesInv(Send(s, channel, m))
  {
    if Sendable(m) {
      assert Send(s, channel, m).sent[..|s.sent|] == s.sent;
      NextBaseNumbers(|Bases(s.sent, channel)|);
    }
  }

  lemma {:induction false} SendAllKeepsSequences(s: Server, packets: seq<Outgoing>)
    requires SequencesInv(s)
    ensures SequencesInv(SendAll(s, packets))
    decreases packets
  {
    if packets != [] {
      SendKeepsSequences(s, packets[0].channel, packets[0].message);
      SendAllKeepsSequences(Send(s, packets[0].channel, packets[0].message), packets[1..]);
    }
  }

  lemma SendMessagesKeepsSequences(s: Server, messages: seq<Message>)
    requires SequencesInv(s)
    ensures SequencesInv(SendMessages(s, messages))
  {
    SendMessagesIsSendAll(s, messages);
    SendAllKeepsSequences(s, OnReliable(messages));
  }

  lemma ReplyKeepsSequences(s: Server, reply: TransportReply)
    requires SequencesInv(s)
    ensures SequencesInv(SendReply(s, reply))
  {
    assert SendReply(s, reply).sent[..|s.sent|] == s.sent;
  }

  lemma EventKeepsSequences(s: Server, cfg: Config, packet: DecodedPacket, now: nat)
    requires SequencesInv(s)
    ensures SequencesInv(HandlePacket(s, cfg, packet, now))
  {
    var o := cfg.rules(s.peer.combat, packet);
    var t := s.(peer := s.peer.(combat := o.combat), accepted := s.accepted + o.accepted);
    SendAllKeepsSequences(t, o.packets);
    CheckTerminalOnlyQueues(Handled(s, cfg, packet), cfg, now, false);
    CheckTerminalOnlyQueues(s, cfg, now, false);
  }

  lemma BeginKeepsSequences(s: Server, cfg: Config, now: nat) returns (t: Server)
    requires SequencesInv(s)
    ensures t == StartElapsedPhase(s, cfg, now) && SequencesInv(t)
  {
    t := StartElapsedPhase(s, cfg, now);
    SendMessagesKeepsSequences(s, StatsBlock(s.peer.combat, cfg));
    SendKeepsSequences(SendStats(s, cfg), Reliable, StartElapsed(ElapsedMs(s.peer.assignment, now)));
  }

  lemma TickKeepsSequences(s: Server, cfg: Config, now: nat)
    requires SequencesInv(s)
    ensures SequencesInv(Tick(s, cfg, now))
  {
    var a := s.peer.assignment;
    SendKeepsSequences(s, Unsequenced, GameStateTick(ElapsedMs(a, now), RemainingMs(a, now)));
    CheckTerminalOnlyQueues(SendTick(s, now), cfg, now, TimeIsUp(a, now));
  }

  lemma SyncKeepsSequences(s: Server, cfg: Config, ctx: Option<SyncContext>, now: nat)
    requires SequencesInv(s)
    ensures SequencesInv(InitialSync(s, cfg, ctx, now))
  {
    var world := if ctx.Some? then BuildWorld(ctx.value) else None;
    if world.Some? {
      var t := s.(peer := StartWorld(s.peer, ctx.value, world.value, now));
      assert SequencesInv(t);
      SendMessagesKeepsSequences(t, WorldMessages(world.value));
    }
  }

  lemma MoveKeepsSequences(s: Server, cfg: Config, m: Move)
    requires SequencesInv(s)
    ensures SequencesInv(Apply(s, cfg, m))
  {
    match m {
      case Update(_) =>
      case Event(packet, now) => EventKeepsSequences(s, cfg, packet, now);
      case Answer => SendKeepsSequences(s, Unsequenced, CurrentPacket(0));
      case Acknowledge(reply) => ReplyKeepsSequences(s, reply);
      case Synchronise(context, now) => SyncKeepsSequences(s, cfg, context, now);
      case Begin(now) => var t := BeginKeepsSequences(s, cfg, now);
      case Pulse(now) => TickKeepsSequences(s, cfg, now);
    }
  }

  /** Over every run the bases on both numbered channels are 0, 8, 16, ... modulo 65536, and whatever was
      framed could be encoded. */
  lemma RunSequences(cfg: Config, datagrams: seq<Datagram>)
    ensures SequencesInv(Run(cfg, datagrams))
  {
    forall s: Server, m: Move | SequencesInv(s) ensures SequencesInv(Apply(s, cfg, m)) {
      MoveKeepsSequences(s, cfg, m);
    }
    Always(cfg, datagrams, s => SequencesInv(s), m => true);
  }

  // ---------------------------------------------------------------- mission results

  predicate NewSuccess(s: Server, t: Server) {
    t.results != s.results && t.results != [] && t.results[|t.results| - 1].success
  }

  predicate SomeoneDown(c: Combat) { PlayerDown(c) || ObjectiveDown(c) }

  ghost predicate MissionBasics(s: Server, cfg: Config) {
    var p := s.peer.progress;
    && (!p.sentSync ==> !MissionActive(s.peer.assignment) && !p.resultSent)
    && |s.results| == (if p.resultSent && cfg.hasCallback then 1 else 0)
    && (s.results != [] && !s.results[0].success ==> SomeoneDown(s.peer.combat))
  }

  /** Before the sync there is no mission; a result is queued once; and in an active mission nobody stays
      down without a result. */
  ghost predicate MissionInv(s: Server, cfg: Config) {
    var a := s.peer.assignment;
    && MissionBasics(s, cfg)
    && (cfg.gameplaySync && MissionActive(a) && a.clientId > 0 && SomeoneDown(s.peer.combat) ==>
          s.peer.progress.resultSent)
  }

  lemma CheckTerminalLatches(s: Server, cfg: Config, now: nat, allow: bool)
    requires MissionBasics(s, cfg)
    ensures MissionInv(CheckTerminal(s, cfg, now, false), cfg)
    ensures MissionInv(s, cfg) ==> MissionInv(CheckTerminal(s, cfg, now, allow), cfg)
  {
  }

  lemma HarmKeepsDown(c: Combat, after: Combat)
    requires OnlyHarmed(c, after) && SomeoneDown(c)
    ensures SomeoneDown(after)
  {
    if !PlayerDown(c) {
      var id :| id in c.entities && IsDown(c.entities[id]);
      assert Harmed(c.entities[id], after.entities[id]);
    }
  }

  /** Handling a combat packet keeps the mission invariant and never queues a success. */
  lemma EventKeepsMission(s: Server, cfg: Config, packet: DecodedPacket, now: nat)
    requires MissionInv(s, cfg) && Fair(cfg.rules)
    ensures var t := HandlePacket(s, cfg, packet, now); MissionInv(t, cfg) && !NewSuccess(s, t)
  {
    if cfg.gameplaySync {
      var c, t := s.peer.combat, Handled(s, cfg, packet);
      HandledViews(s, cfg, packet, 0, ThePlayer);
      assert Lawful(c, cfg.rules(c, packet));
      if SomeoneDown(c) { HarmKeepsDown(c, t.peer.combat); }
      CheckTerminalLatches(t, cfg, now, false);
    }
  }

  lemma {:induction false} CombatTableFresh(spawns: seq<Spawn>)
    ensures forall id <- CombatTable(spawns) :: var e := CombatTable(spawns)[id];
              e.life == e.maxLife > 0 && e.spirit == 0 && e.category in {OBJECTIVE, HOSTILE}
  {
    if spawns != [] { CombatTableFresh(spawns[..|spawns| - 1]); }
  }

  lemma StartingCombatIsUp(spawns: seq<Spawn>)
    ensures !SomeoneDown(StartingCombat(spawns))
  {
    CombatTableFresh(spawns);
  }

  /** The world an attempt at the initial sync starts, if it starts one. */
  function SyncedWorld(cfg: Config, ctx: Option<SyncContext>): Option<World> {
    if !cfg.gameplaySync || !cfg.hasProvider || ctx == None || BuildWorld(ctx.value) == None ||
       !HeaderFits(BuildWorld(ctx.value).value) then None
    else BuildWorld(ctx.value)
  }

  /** An attempt at the initial sync only sets its flag, or starts a world and sends its messages. */
  lemma SyncSends(s: Server, cfg: Config, ctx: Option<SyncContext>, now: nat)
    returns (world: Option<World>, started: Server, packets: seq<Outgoing>)
    ensures world == SyncedWorld(cfg, ctx)
    ensures started == if world.Some? then s.(peer := StartWorld(s.peer, ctx.value, world.value, now)) else s
    ensures packets == if world.Some? then OnReliable(WorldMessages(world.value)) else []
    ensures forall p <- packets :: IsSilent(p.message)
    ensures var t, u := InitialSync(s, cfg, ctx, now), SendAll(started, packets); t == u.(peer := FinishSync(u.peer))
  {
    world := SyncedWorld(cfg, ctx);
    started := if world.Some? then s.(peer := StartWorld(s.peer, ctx.value, world.value, now)) else s;
    packets := if world.Some? then OnReliable(WorldMessages(world.value)) else [];
    if world.Some? {
      SendMessagesIsSendAll(started, WorldMessages(world.value));
      WorldIsSilent(world.value);
    }
  }

  predicate IsSilent(m: Message) { !m.StatUpdate? && !m.HitRelation? && !m.GameStateTick? }

  lemma WorldIsSilent(world: World)
    ensures forall p <- OnReliable(WorldMessages(world)) :: IsSilent(p.message)
  {
    assert forall m <- WorldMessages(world) :: IsSilent(m);
  }

  lemma SyncViews(s: Server, cfg: Config, ctx: Option<SyncContext>, now: nat, id: u16, v: Victim)
    returns (world: Option<World>, started: Server)
    ensures world == SyncedWorld(cfg, ctx)
    ensures started == if world.Some? then s.(peer := StartWorld(s.peer, ctx.value, world.value, now)) else s
    ensures var t := InitialSync(s, cfg, ctx, now);
            var packets := if world.Some? then OnReliable(WorldMessages(world.value)) else [];
            && t.results == s.results && t.accepted == s.accepted && t.sent == SendAll(started, packets).sent
            && t.peer == FinishSync(started.peer.(counters := t.peer.counters))
            && SessionOps(t.sent) == SessionOps(s.sent) + OpsOf(packets) && Shown(t.sent, id) == Shown(s.sent, id)
            && Damage(t.sent, v) == Damage(s.sent, v) && Hits(t.sent, v) == Hits(s.sent, v)
  {
    var packets;
    world, started, packets := SyncSends(s, cfg, ctx, now);
    SilentViews(started, packets, id, v);
  }

  lemma SilentViews(s: Server, packets: seq<Outgoing>, id: u16, v: Victim)
    requires forall p <- packets :: !p.message.StatUpdate? && !p.message.HitRelation?
    ensures var t := SendAll(s, packets);
            && OnlySent(s, t) && SessionOps(t.sent) == SessionOps(s.sent) + OpsOf(packets)
            && Shown(t.sent, id) == Shown(s.sent, id)
            && Damage(t.sent, v) == Damage(s.sent, v) && Hits(t.sent, v) == Hits(s.sent, v)
  {
    SendAllViews(s, packets, id, v);
    SilentPackets(packets, id, v);
  }

  /** Packets without stats and hits tell a client nothing about combat. */
  lemma {:induction false} SilentPackets(packets: seq<Outgoing>, id: u16, v: Victim)
    requires forall p <- packets :: !p.message.HitRelation?
    ensures DamageTo(packets, DEFAULT_PLAYER, v) == 0 && HitsOn(packets, DEFAULT_PLAYER, v) == 0
    ensures (forall p <- packets :: !p.message.StatUpdate?) ==> LastStat(packets, id) == None
  {
    if packets != [] { SilentPackets(packets[1..], id, v); }
  }

  /** The packets of the initial stats, none if they have been sent before. */
  function StatsPackets(s: Server, cfg: Config): seq<Outgoing> {
    if s.peer.progress.sentStats then [] else OnReliable(StatsBlock(s.peer.combat, cfg))
  }

  /** The initial stats reach the views of a client. */
  lemma StatsViews(s: Server, cfg: Config, id: u16, v: Victim) returns (packets: seq<Outgoing>)
    ensures packets == StatsPackets(s, cfg) && forall p <- packets :: p.message.StatUpdate?
    ensures var t := SendStats(s, cfg);
            && t.results == s.results && t.accepted == s.accepted && t.sent == SendAll(s, packets).sent
            && t.peer == s.peer.(counters := t.peer.counters, progress := s.peer.progress.(sentStats := true))
            && Reliables(t.sent) == Reliables(s.sent) + Arriving(packets)
            && SessionOps(t.sent) == SessionOps(s.sent) + OpsOf(packets)
            && Shown(t.sent, id) == (if LastStat(packets, id).Some? then LastStat(packets, id) else Shown(s.sent, id))
            && Damage(t.sent, v) == Damage(s.sent, v) && Hits(t.sent, v) == Hits(s.sent, v)
  {
    packets := StatsPackets(s, cfg);
    assert forall p <- packets :: p.message in StatsBlock(s.peer.combat, cfg);
    SendMessagesIsSendAll(s, StatsBlock(s.peer.combat, cfg));
    SendAllViews(s, packets, id, v);
    SilentPackets(packets, id, v);
  }

  /** The start packet follows the initial stats, and the session moves on. */
  lemma BeginViews(s: Server, cfg: Config, now: nat, id: u16, v: Victim) returns (u: Server, ms: u32)
    ensures u == SendStats(s, cfg) && ms == ElapsedMs(s.peer.assignment, now)
    ensures var t := StartElapsedPhase(s, cfg, now);
            && t.results == u.results && t.accepted == u.accepted && t.sent == Send(u, Reliable, StartElapsed(ms)).sent
            && t.peer == FinishStart(u.peer.(counters := t.peer.counters))
            && Reliables(t.sent) == Reliables(u.sent) + [StartElapsed(ms)]
            && SessionOps(t.sent) == SessionOps(u.sent) + [0x05]
            && Shown(t.sent, id) == Shown(u.sent, id)
            && Damage(t.sent, v) == Damage(u.sent, v) && Hits(t.sent, v) == Hits(u.sent, v)
  {
    u, ms := SendStats(s, cfg), ElapsedMs(s.peer.assignment, now);
    SendViews(u, Reliable, StartElapsed(ms), id, v);
  }

  /** Two servers alike in everything the session, mission and combat properties look at, but for a result. */
  ghost predicate Quiet(s: Server, t: Server) {
    && Reliables(t.sent) == Reliables(s.sent) && SessionOps(t.sent) == SessionOps(s.sent)
    && t.accepted == s.accepted && t.peer.combat == s.peer.combat && t.peer.assignment == s.peer.assignment
    && t.peer.progress ==
         s.peer.progress.(resultSent := t.peer.progress.resultSent, lastTickAt := t.peer.progress.lastTickAt)
    && (forall f <- t.sent :: f in s.sent || f.Reply? || !f.message.HitRelation?)
    && (forall id: u16 :: Shown(t.sent, id) == Shown(s.sent, id))
    && (forall v: Victim :: Damage(t.sent, v) == Damage(s.sent, v) && Hits(t.sent, v) == Hits(s.sent, v))
  }

  /** Acknowledgements, current-packet replies, updates and ticks tell nothing about the session or combat. */
  lemma QuietMoves(s: Server, cfg: Config, m: Move)
    requires m.Update? || m.Answer? || m.Acknowledge? || m.Pulse?
    ensures Quiet(s, Apply(s, cfg, m))
    ensures !m.Pulse? ==> Apply(s, cfg, m).results == s.results && Apply(s, cfg, m).peer.progress == s.peer.progress
  {
    match m {
      case Update(_) =>
      case Answer => QuietSend(s, CurrentPacket(0));
      case Acknowledge(reply) => assert SendReply(s, reply).sent[..|s.sent|] == s.sent;
      case Pulse(now) => QuietTick(s, cfg, now);
    }
  }

  lemma QuietTick(s: Server, cfg: Config, now: nat)
    ensures Quiet(s, Tick(s, cfg, now))
  {
    var a := s.peer.assignment;
    QuietSend(s, GameStateTick(ElapsedMs(a, now), RemainingMs(a, now)));
    CheckTerminalOnlyQueues(SendTick(s, now), cfg, now, TimeIsUp(a, now));
  }

  lemma QuietSend(s: Server, m: Message)
    requires m.CurrentPacket? || m.GameStateTick?
    ensures Quiet(s, Send(s, Unsequenced, m)) && OnlySent(s, Send(s, Unsequenced, m))
  {
    assert Send(s, Unsequenced, m).sent[..|s.sent|] == s.sent;
  }

  lemma SyncKeepsMission(s: Server, cfg: Config, ctx: Option<SyncContext>, now: nat)
    requires MissionInv(s, cfg) && !s.peer.progress.sentSync
    ensures MissionInv(InitialSync(s, cfg, ctx, now), cfg) && InitialSync(s, cfg, ctx, now).results == s.results
  {
    var world, started := SyncViews(s, cfg, ctx, now, 0, ThePlayer);
    if world.Some? { StartingCombatIsUp(world.value.entities); }
  }

  lemma TickKeepsMission(s: Server, cfg: Config, now: nat)
    requires MissionInv(s, cfg)
    ensures var t := Tick(s, cfg, now); MissionInv(t, cfg) && (NewSuccess(s, t) ==> !SomeoneDown(t.peer.combat))
  {
    var u := SendTick(s, now);
    assert MissionInv(u, cfg);
    CheckTerminalLatches(u, cfg, now, TimeIsUp(s.peer.assignment, now));
  }

  /** Every move keeps the mission invariant. Only the pulse can queue a success, and then everyone is alive. */
  lemma MoveKeepsMission(s: Server, cfg: Config, m: Move)
    requires MissionInv(s, cfg) && Enabled(s, m) && Fair(cfg.rules)
    ensures var t := Apply(s, cfg, m);
            && MissionInv(t, cfg) && (NewSuccess(s, t) ==> m.Pulse? && !SomeoneDown(t.peer.combat))
  {
    match m {
      case Event(packet, now) => EventKeepsMission(s, cfg, packet, now);
      case Synchronise(context, now) => SyncKeepsMission(s, cfg, context, now);
      case Begin(now) =>
        var packets := StatsViews(s, cfg, 0, ThePlayer);
        var u, ms := BeginViews(s, cfg, now, 0, ThePlayer);
      case Pulse(now) => TickKeepsMission(s, cfg, now);
      case _ => QuietMoves(s, cfg, m);
    }
  }

  /** At most one mission result is ever queued for a peer, whatever it sends and whatever the sync
      context says; a failure means the player or an objective is down; and while a mission of a known
      client runs, a fallen player or objective has already decided it. */
  lemma AtMostOneResult(cfg: NativeConfig, datagrams: seq<Datagram>)
    ensures MissionInv(Run(cfg, datagrams), cfg) && |Run(cfg, datagrams).results| <= 1
  {
    NativeRulesAreFair(cfg);
    RunKeepsMission(cfg, datagrams);
  }

  lemma RunKeepsMission(cfg: Config, datagrams: seq<Datagram>)
    requires Fair(cfg.rules)
    ensures MissionInv(Run(cfg, datagrams), cfg)
  {
    forall s: Server, m: Move | MissionInv(s, cfg) && Enabled(s, m) ensures MissionInv(Apply(s, cfg, m), cfg) {
      MoveKeepsMission(s, cfg, m);
    }
    Always(cfg, datagrams, s => MissionInv(s, cfg), m => true);
  }

  /** The datagram that queues a success leaves the player and every objective alive, although the success
      branch never looks at them. */
  lemma SuccessOnlyWhileAlive(cfg: NativeConfig, datagrams: seq<Datagram>, d: Datagram)
    requires NewSuccess(Run(cfg, datagrams), Run(cfg, datagrams + [d]))
    ensures !SomeoneDown(Run(cfg, datagrams + [d]).peer.combat)
  {
    assert (datagrams + [d])[..|datagrams|] == datagrams;
    NativeRulesAreFair(cfg);
    RunKeepsMission(cfg, datagrams);
    var t := StepSucceedsAlive(Run(cfg, datagrams), cfg, d);
  }

  ghost predicate Undecided(s: Server, t: Server, cfg: Config) { MissionInv(t, cfg) && !NewSuccess(s, t) }

  /** Until the pulse nothing queues a success. */
  lemma ServedKeepsMission(s: Server, cfg: Config, d: Datagram)
    requires MissionInv(s, cfg) && Fair(cfg.rules)
    ensures Undecided(s, Served(s, cfg, d), cfg)
  {
    var moves := ServeMoves(s, cfg, d);
    ServedIsMoves(s, cfg, d);
    MovesFit(s, cfg, d);
    forall t: Server, m: Move | Undecided(s, t, cfg) && !m.Pulse? && Enabled(t, m)
      ensures Undecided(s, Apply(t, cfg, m), cfg)
    {
      MoveKeepsMission(t, cfg, m);
    }
    MovesKeep(s, cfg, moves, |moves|, t => Undecided(s, t, cfg), (m: Move) => !m.Pulse?);
    assert moves[..|moves|] == moves;
  }

  lemma StepSucceedsAlive(s: Server, cfg: Config, d: Datagram) returns (t: Server)
    requires MissionInv(s, cfg) && Fair(cfg.rules)
    ensures t == Step(s, cfg, d) && (NewSuccess(s, t) ==> !SomeoneDown(t.peer.combat))
  {
    t := Step(s, cfg, d);
    ServedKeepsMission(s, cfg, d);
    TickKeepsMission(Served(s, cfg, d), cfg, d.now);
  }
}
