/** When the frames of a run are sent: every frame belongs to one move of one datagram. What holds of hit relations
    at that moment, and how far apart the game-state ticks are. */
module UdpMoments {
  import opened Bytes
  import opened UdpMessages
  import opened UdpProtocol
  import opened UdpCombat
  import opened UdpPeer
  import opened UdpRuns

  // ---------------------------------------------------------------- the record of frames grows

  /** Frames are only added, and what they say is fine. */
  ghost predicate Appends(before: seq<Sent>, after: seq<Sent>, ok: Message -> bool) {
    before <= after && forall i :: |before| <= i < |after| && after[i].Framed? ==> ok(after[i].message)
  }

  lemma AppendsTwice(a: seq<Sent>, b: seq<Sent>, c: seq<Sent>, ok: Message -> bool)
    requires Appends(a, b, ok) && Appends(b, c, ok)
    ensures Appends(a, c, ok)
  {
    forall i | |a| <= i < |c| && c[i].Framed? ensures ok(c[i].message) {
      if i < |b| { assert c[i] == b[i]; }
    }
  }

  lemma {:induction false} SendAllAppends(s: Server, packets: seq<Outgoing>, ok: Message -> bool)
    requires forall p <- packets :: ok(p.message)
    ensures Appends(s.sent, SendAll(s, packets).sent, ok)
    decreases packets
  {
    if packets != [] {
      var p := packets[0];
      var t := Send(s, p.channel, p.message);
      SendAllAppends(t, packets[1..], ok);
      AppendsTwice(s.sent, t.sent, SendAll(t, packets[1..]).sent, ok);
    }
  }

  /** What a move says is fine: what the rules of combat answer to its packet, and otherwise everything but hits, and
      but ticks where it is no pulse. */
  ghost predicate SaysOnly(s: Server, cfg: Config, m: Move, ok: Message -> bool) {
    if m.Event? then cfg.gameplaySync ==> forall p <- cfg.rules(s.peer.combat, m.packet).packets :: ok(p.message)
    else forall x: Message :: !x.HitRelation? && (x.GameStateTick? ==> m.Pulse?) ==> ok(x)
  }

  lemma MoveAppends(s: Server, cfg: Config, m: Move, ok: Message -> bool)
    requires SaysOnly(s, cfg, m, ok)
    ensures Appends(s.sent, Apply(s, cfg, m).sent, ok)
  {
    match m {
      case Event(packet, now) => EventAppends(s, cfg, packet, now, ok);
      case Synchronise(context, now) => SyncAppends(s, cfg, context, now, ok);
      case Begin(now) => BeginAppends(s, cfg, now, ok);
      case Pulse(now) => TickSends(s, cfg, now);
      case _ =>
    }
  }

  lemma SyncAppends(s: Server, cfg: Config, ctx: Option<SyncContext>, now: nat, ok: Message -> bool)
    requires forall x: Message :: !x.HitRelation? && !x.GameStateTick? ==> ok(x)
    ensures Appends(s.sent, InitialSync(s, cfg, ctx, now).sent, ok)
  {
    var world, started, packets := SyncSends(s, cfg, ctx, now);
    SendAllAppends(started, packets, ok);
  }

  lemma EventAppends(s: Server, cfg: Config, packet: DecodedPacket, now: nat, ok: Message -> bool)
    requires cfg.gameplaySync ==> forall p <- cfg.rules(s.peer.combat, packet).packets :: ok(p.message)
    ensures Appends(s.sent, HandlePacket(s, cfg, packet, now).sent, ok)
  {
    if cfg.gameplaySync {
      var o := cfg.rules(s.peer.combat, packet);
      SendAllAppends(s.(peer := s.peer.(combat := o.combat), accepted := s.accepted + o.accepted), o.packets, ok);
      CheckTerminalOnlyQueues(Handled(s, cfg, packet), cfg, now, false);
    } else {
      CheckTerminalOnlyQueues(s, cfg, now, false);
    }
  }

  lemma BeginAppends(s: Server, cfg: Config, now: nat, ok: Message -> bool)
    requires forall x: Message :: x.StatUpdate? || x.StartElapsed? ==> ok(x)
    ensures Appends(s.sent, StartElapsedPhase(s, cfg, now).sent, ok)
  {
    var packets := StatsViews(s, cfg, 0, ThePlayer);
    var u, ms := BeginViews(s, cfg, now, 0, ThePlayer);
    SendAllAppends(s, packets, ok);
    AppendsTwice(s.sent, u.sent, Send(u, Reliable, StartElapsed(ms)).sent, ok);
  }

  /** A pulse does nothing, or sends one tick; then the last tick is three seconds past. */
  lemma TickSends(s: Server, cfg: Config, now: nat)
    ensures var t, p := Tick(s, cfg, now), s.peer.progress;
            t == s ||
            (&& p.sentElapsed && (p.lastTickAt == 0 || now - p.lastTickAt >= TICK_INTERVAL_NS)
             && t.peer.progress == p.(lastTickAt := now, resultSent := t.peer.progress.resultSent)
             && |t.sent| == |s.sent| + 1 && s.sent <= t.sent
             && t.sent[|s.sent|].Framed? && t.sent[|s.sent|].message.GameStateTick?)
  {
    CheckTerminalOnlyQueues(SendTick(s, now), cfg, now, TimeIsUp(s.peer.assignment, now));
  }

  // ---------------------------------------------------------------- every frame has its moment

  lemma {:induction false} ApplyAllNext(s: Server, cfg: Config, moves: seq<Move>, k: nat)
    requires k < |moves|
    ensures ApplyAll(s, cfg, moves[..k + 1]) == Apply(ApplyAll(s, cfg, moves[..k]), cfg, moves[k])
    decreases k
  {
    if k == 0 {
      assert moves[..1][1..] == [];
    } else {
      assert moves[..k + 1][1..] == moves[1..][..k] && moves[..k][1..] == moves[1..][..k - 1];
      ApplyAllNext(Apply(s, cfg, moves[0]), cfg, moves[1..], k - 1);
    }
  }

  /** One move of a datagram leads from one moment to the next. */
  lemma MidwayNext(cfg: Config, datagrams: seq<Datagram>, d: Datagram, k: nat)
    requires k < |Moves(Run(cfg, datagrams), cfg, d)|
    ensures var s, t := Midway(cfg, datagrams, d, k), Midway(cfg, datagrams, d, k + 1);
            t == Apply(s, cfg, Moves(Run(cfg, datagrams), cfg, d)[k]) && s.sent <= t.sent
  {
    var moves := Moves(Run(cfg, datagrams), cfg, d);
    ApplyAllNext(Run(cfg, datagrams), cfg, moves, k);
    MoveAppends(Midway(cfg, datagrams, d, k), cfg, moves[k], m => true);
  }

  /** A datagram leads from the moment before its first move to the one after its last. */
  lemma MidwayEnds(cfg: Config, datagrams: seq<Datagram>, d: Datagram)
    ensures Midway(cfg, datagrams, d, 0) == Run(cfg, datagrams)
    ensures Midway(cfg, datagrams, d, |Moves(Run(cfg, datagrams), cfg, d)|) == Run(cfg, datagrams + [d])
  {
    var s := Run(cfg, datagrams);
    var moves := Moves(s, cfg, d);
    StepIsMoves(s, cfg, d);
    assert moves[..|moves|] == moves && (datagrams + [d])[..|datagrams|] == datagrams;
  }

  lemma {:induction false} MoveOfFrame(cfg: Config, datagrams: seq<Datagram>, d: Datagram, n: nat, i: nat)
    returns (k: nat)
    requires n <= |Moves(Run(cfg, datagrams), cfg, d)|
    requires |Run(cfg, datagrams).sent| <= i < |Midway(cfg, datagrams, d, n).sent|
    ensures k < n && |Midway(cfg, datagrams, d, k).sent| <= i < |Midway(cfg, datagrams, d, k + 1).sent|
    ensures Midway(cfg, datagrams, d, k + 1).sent <= Midway(cfg, datagrams, d, n).sent
    decreases n
  {
    MidwayEnds(cfg, datagrams, d);
    MidwayNext(cfg, datagrams, d, n - 1);
    if i < |Midway(cfg, datagrams, d, n - 1).sent| { k := MoveOfFrame(cfg, datagrams, d, n - 1, i); }
    else { k := n - 1; }
  }

  lemma {:induction false} MidwayGrows(cfg: Config, datagrams: seq<Datagram>, d: Datagram, n: nat)
    requires n <= |Moves(Run(cfg, datagrams), cfg, d)|
    ensures Run(cfg, datagrams).sent <= Midway(cfg, datagrams, d, n).sent
    decreases n
  {
    MidwayEnds(cfg, datagrams, d);
    if n > 0 {
      MidwayGrows(cfg, datagrams, d, n - 1);
      MidwayNext(cfg, datagrams, d, n - 1);
    }
  }

  /** The record of frames is never rewritten. */
  lemma RunGrows(cfg: Config, datagrams: seq<Datagram>, d: Datagram)
    ensures Run(cfg, datagrams).sent <= Run(cfg, datagrams + [d]).sent
  {
    MidwayEnds(cfg, datagrams, d);
    MidwayGrows(cfg, datagrams, d, |Moves(Run(cfg, datagrams), cfg, d)|);
  }

  /** A frame of the record is sent by a move of a datagram. */
  ghost predicate SentBy(cfg: Config, datagrams: seq<Datagram>, i: nat, turn: nat, k: nat) {
    && turn < |datagrams| && k < |Moves(Run(cfg, datagrams[..turn]), cfg, datagrams[turn])|
    && |Midway(cfg, datagrams[..turn], datagrams[turn], k).sent| <= i
    && i < |Midway(cfg, datagrams[..turn], datagrams[turn], k + 1).sent|
    && Midway(cfg, datagrams[..turn], datagrams[turn], k + 1).sent <= Run(cfg, datagrams).sent
  }

  /** Every frame of a run is sent at some moment. */
  lemma {:induction false} MomentOf(cfg: Config, datagrams: seq<Datagram>, i: nat) returns (turn: nat, k: nat)
    requires i < |Run(cfg, datagrams).sent|
    ensures SentBy(cfg, datagrams, i, turn, k)
  {
    var n := |datagrams| - 1;
    var before, d := datagrams[..n], datagrams[n];
    assert datagrams == before + [d];
    if i < |Run(cfg, before).sent| {
      turn, k := MomentOf(cfg, before, i);
      assert before[..turn] == datagrams[..turn] && before[turn] == datagrams[turn];
      RunGrows(cfg, before, d);
    } else {
      MidwayEnds(cfg, before, d);
      turn := n;
      k := MoveOfFrame(cfg, before, d, |Moves(Run(cfg, before), cfg, d)|, i);
    }
  }

  // ---------------------------------------------------------------- hit relations

  /** An outcome keeps the chains tracking the accepted actions, and its hits carry their combo lengths. */
  ghost predicate Counts(c: Combat, o: Outcome, accepted: seq<Action>) {
    ChainsTrack(c, accepted) ==>
      ChainsTrack(o.combat, accepted + o.accepted) &&
          forall p <- o.packets :: CountedHit(accepted + o.accepted, p.message)
  }

  predicate NobodyActs(c: Combat, o: Outcome) { c.entities == map[] ==> o.accepted == [] }

  /** Fair rules of combat that count combos. */
  ghost predicate Counting(rules: Rules) {
    && Fair(rules)
    && (forall c: Combat, packet: DecodedPacket, accepted: seq<Action> :: Counts(c, rules(c, packet), accepted))
    && (forall c: Combat, packet: DecodedPacket :: NobodyActs(c, rules(c, packet)))
  }

  lemma NativeRulesCount(cfg: NativeConfig)
    ensures Counting(cfg.rules)
  {
    NativeRulesAreFair(cfg);
    forall c: Combat, packet: DecodedPacket, accepted: seq<Action> ensures Counts(c, cfg.rules(c, packet), accepted) {
      if ChainsTrack(c, accepted) { HandleTracksChains(c, packet, accepted); }
    }
  }

  /** The chains track the accepted actions, and nobody acts before the sync. */
  ghost predicate ChainsInv(s: Server) {
    && ChainsTrack(s.peer.combat, s.accepted)
    && (!s.peer.progress.sentSync ==> s.peer.combat.entities == map[] && s.accepted == [])
  }

  lemma EventKeepsChains(s: Server, cfg: Config, packet: DecodedPacket, now: nat)
    requires ChainsInv(s) && Counting(cfg.rules)
    ensures ChainsInv(HandlePacket(s, cfg, packet, now))
  {
    if cfg.gameplaySync {
      var c, o := s.peer.combat, cfg.rules(s.peer.combat, packet);
      HandledViews(s, cfg, packet, 0, ThePlayer);
      assert Lawful(c, cfg.rules(c, packet));
      assert Counts(c, cfg.rules(c, packet), s.accepted);
      assert NobodyActs(c, cfg.rules(c, packet));
      CheckTerminalOnlyQueues(Handled(s, cfg, packet), cfg, now, false);
    } else {
      CheckTerminalOnlyQueues(s, cfg, now, false);
    }
  }

  lemma FreshChains(spawns: seq<Spawn>)
    ensures ChainsTrack(StartingCombat(spawns), [])
  {
    forall source: u16 ensures ChainTracks(StartingCombat(spawns), [], source) {}
  }

  lemma MoveKeepsChains(s: Server, cfg: Config, m: Move)
    requires ChainsInv(s) && Counting(cfg.rules) && Enabled(s, m)
    ensures ChainsInv(Apply(s, cfg, m))
  {
    match m {
      case Event(packet, now) => EventKeepsChains(s, cfg, packet, now);
      case Synchronise(context, now) =>
        var world, started := SyncViews(s, cfg, context, now, 0, ThePlayer);
        if world.Some? { FreshChains(world.value.entities); }
      case Begin(now) =>
        var packets := StatsViews(s, cfg, 0, ThePlayer);
        var u, ms := BeginViews(s, cfg, now, 0, ThePlayer);
      case _ => QuietMoves(s, cfg, m);
    }
  }

  lemma RunKeepsChains(cfg: Config, datagrams: seq<Datagram>, d: Datagram, k: nat)
    requires Counting(cfg.rules) && k <= |Moves(Run(cfg, datagrams), cfg, d)|
    ensures ChainsInv(Midway(cfg, datagrams, d, k))
  {
    forall source: u16 ensures ChainTracks(NEW_PEER.combat, [], source) {}
    forall s: Server, m: Move | ChainsInv(s) && Enabled(s, m) ensures ChainsInv(Apply(s, cfg, m)) {
      MoveKeepsChains(s, cfg, m);
    }
    Always(cfg, datagrams, s => ChainsInv(s), m => true);
    AlwaysMidway(cfg, datagrams, d, k, s => ChainsInv(s), m => true);
  }

  /** A hit relation that is sent counts the actions accepted with it, and was lawful just before. */
  ghost predicate GoodHit(c: Combat, accepted: seq<Action>, m: Message) { CountedHit(accepted, m) && LegalHit(c, m) }

  lemma MoveCountsHits(s: Server, cfg: Config, m: Move)
    requires ChainsInv(s) && Counting(cfg.rules)
    ensures var t := Apply(s, cfg, m); Appends(s.sent, t.sent, x => GoodHit(s.peer.combat, t.accepted, x))
  {
    var c, t := s.peer.combat, Apply(s, cfg, m);
    if m.Event? && cfg.gameplaySync {
      HandledViews(s, cfg, m.packet, 0, ThePlayer);
      CheckTerminalOnlyQueues(Handled(s, cfg, m.packet), cfg, m.eventAt, false);
      assert Lawful(c, cfg.rules(c, m.packet));
      assert Counts(c, cfg.rules(c, m.packet), s.accepted);
    }
    MoveAppends(s, cfg, m, x => GoodHit(c, t.accepted, x));
  }

  /** At the moment a hit relation is sent, its index is modulo 65536 the length of the longest combo that the actions
      accepted from its source so far end in, the newest of all accepted actions is its source's, and it strikes whom
      the rules allow: the player a living hostile, a living entity the player or a living objective, with no more
      damage than the target had life left. */
  lemma HitIndexIsComboLength(cfg: NativeConfig, datagrams: seq<Datagram>, d: Datagram, k: nat, i: nat)
    requires k < |Moves(Run(cfg, datagrams), cfg, d)|
    requires |Midway(cfg, datagrams, d, k).sent| <= i < |Midway(cfg, datagrams, d, k + 1).sent|
    requires var f := Midway(cfg, datagrams, d, k + 1).sent[i]; f.Framed? && f.message.HitRelation?
    ensures var s, t := Midway(cfg, datagrams, d, k), Midway(cfg, datagrams, d, k + 1);
            var hit := t.sent[i].message;
            && t.accepted != [] && t.accepted[|t.accepted| - 1].source == hit.source
            && hit.hitIndex == ComboLength(Ticks(t.accepted, hit.source)) % 0x1_0000
            && LegalHit(s.peer.combat, hit)
  {
    var s, t := Midway(cfg, datagrams, d, k), Midway(cfg, datagrams, d, k + 1);
    NativeRulesCount(cfg);
    RunKeepsChains(cfg, datagrams, d, k);
    MidwayNext(cfg, datagrams, d, k);
    MoveCountsHits(s, cfg, Moves(Run(cfg, datagrams), cfg, d)[k]);
    assert GoodHit(s.peer.combat, t.accepted, t.sent[i].message);
  }

  // ---------------------------------------------------------------- game-state ticks

  predicate IsTick(f: Sent) { f.Framed? && f.message.GameStateTick? }

  predicate NotTick(m: Message) { !m.GameStateTick? }

  predicate IsCombatMessage(m: Message) {
    m.StatUpdate? || m.DamageNotice? || m.HitRelation? || m.TargetMotion? || m.MotionEvent?
  }

  predicate CombatOnly(o: Outcome) { forall p <- o.packets :: IsCombatMessage(p.message) }

  /** No tick has been sent between two moments, and a mission that runs goes on with its last tick. */
  ghost predicate Unticked(s: Server, t: Server) {
    var p, q := s.peer.progress, t.peer.progress;
    && Appends(s.sent, t.sent, NotTick)
    && (p.sentElapsed ==> q.sentElapsed && q.lastTickAt == p.lastTickAt)
  }

  lemma MoveSendsNoTick(s: Server, t: Server, cfg: NativeConfig, m: Move)
    requires Unticked(s, t) && Enabled(t, m) && !m.Pulse?
    ensures Unticked(s, Apply(t, cfg, m))
  {
    if m.Event? { HandleSpeaksCombat(t.peer.combat, m.packet); }
    MoveAppends(t, cfg, m, NotTick);
    AppendsTwice(s.sent, t.sent, Apply(t, cfg, m).sent, NotTick);
    match m {
      case Event(packet, now) => EventKeepsProgress(t, cfg, packet, now);
      case Synchronise(context, now) => var world, started := SyncViews(t, cfg, context, now, 0, ThePlayer);
      case Begin(_) =>
      case _ => QuietMoves(t, cfg, m);
    }
  }

  lemma HandleSpeaksCombat(c: Combat, packet: DecodedPacket)
    ensures CombatOnly(Handle(c, packet))
  {
    if packet.opcode == 0x03 && |packet.payload| >= 24 {
      var source, target := WordAt(packet.payload, 0), WordAt(packet.payload, 2);
      var fields, motion := ExtractFields(packet.payload), Utf16Tail(packet.payload, 24);
      PlayerSpeaksCombat(c, target, fields, motion);
      NpcSpeaksCombat(c, source, target, fields, motion);
    }
  }

  lemma PlayerSpeaksCombat(c: Combat, target: u16, fields: ActionFields, motion: utf16)
    ensures CombatOnly(PlayerAttack(c, target, fields, motion))
  {
  }

  lemma NpcSpeaksCombat(c: Combat, source: u16, target: u16, fields: ActionFields, motion: utf16)
    ensures CombatOnly(NpcAttack(c, source, target, fields, motion))
  {
    if source in c.entities { HitSpeaksCombat(NpcActs(c, source, target, fields.tick), source, target, fields, motion);
        }
  }

  lemma HitSpeaksCombat(c: Combat, source: u16, target: u16, fields: ActionFields, motion: utf16)
    requires source in c.chains
    ensures CombatOnly(HitPlayer(c, source, fields, motion)) &&
            CombatOnly(HitObjective(c, source, target, fields, motion))
  {
  }

  /** Serving a datagram sends no tick; that is left to the pulse. */
  lemma ServedSendsNoTick(s: Server, cfg: NativeConfig, d: Datagram)
    ensures Unticked(s, Served(s, cfg, d))
  {
    var moves := ServeMoves(s, cfg, d);
    ServedIsMoves(s, cfg, d);
    MovesFit(s, cfg, d);
    forall t: Server, m: Move | Unticked(s, t) && !m.Pulse? && Enabled(t, m) ensures Unticked(s, Apply(t, cfg, m)) {
      MoveSendsNoTick(s, t, cfg, m);
    }
    MovesKeep(s, cfg, moves, |moves|, t => Unticked(s, t), (m: Move) => !m.Pulse?);
    assert moves[..|moves|] == moves;
  }

  /** The clock reading of the turn that sent a frame. */
  function ClockOf(cfg: Config, datagrams: seq<Datagram>, i: nat): nat
    requires i < |Run(cfg, datagrams).sent|
  {
    var n := |datagrams| - 1;
    if i < |Run(cfg, datagrams[..n]).sent| then ClockOf(cfg, datagrams[..n], i) else datagrams[n].now
  }

  /** The mission runs since before the first tick, and remembers the last one. */
  ghost predicate LastTickKnown(cfg: Config, datagrams: seq<Datagram>) {
    var s := Run(cfg, datagrams);
    forall i :: 0 <= i < |s.sent| && IsTick(s.sent[i]) ==>
      s.peer.progress.sentElapsed && 0 < ClockOf(cfg, datagrams, i) <= s.peer.progress.lastTickAt
  }

  ghost predicate TicksApart(cfg: Config, datagrams: seq<Datagram>) {
    var s := Run(cfg, datagrams);
    forall i, j :: 0 <= i < j < |s.sent| && IsTick(s.sent[i]) && IsTick(s.sent[j]) ==>
      ClockOf(cfg, datagrams, j) - ClockOf(cfg, datagrams, i) >= TICK_INTERVAL_NS
  }

  /** A turn sends a tick as its last frame if at all, and then the last tick is three seconds past. */
  lemma TurnTicksOnce(s: Server, cfg: NativeConfig, d: Datagram) returns (ticked: bool, t: Server)
    ensures t == Step(s, cfg, d)
    ensures var p := s.peer.progress;
            && s.sent <= t.sent
            && (forall i :: |s.sent| <= i < |t.sent| && IsTick(t.sent[i]) ==> ticked && i == |t.sent| - 1)
            && (p.sentElapsed ==> t.peer.progress.sentElapsed)
            && (if ticked then
                  && t.peer.progress.sentElapsed && t.peer.progress.lastTickAt == d.now
                  && (p.sentElapsed ==> p.lastTickAt == 0 || d.now - p.lastTickAt >= TICK_INTERVAL_NS)
                else p.sentElapsed ==> t.peer.progress.lastTickAt == p.lastTickAt)
  {
    ticked, t := false, Step(s, cfg, d);
    if d.arrival != Dropped {
      var u := Served(s, cfg, d);
      ServedSendsNoTick(s, cfg, d);
      TickSends(u, cfg, d.now);
      ticked := Step(s, cfg, d) != u;
    }
  }

  /** Any two ticks of a run are sent at least three seconds apart, as long as the clock is never at the zero that
      stands for no tick yet. */
  lemma {:induction false} TicksAreApart(cfg: NativeConfig, datagrams: seq<Datagram>)
    requires forall d <- datagrams :: d.now > 0
    ensures LastTickKnown(cfg, datagrams) && TicksApart(cfg, datagrams)
  {
    if datagrams != [] {
      var n := |datagrams| - 1;
      var before, d := datagrams[..n], datagrams[n];
      assert d in datagrams;
      TicksAreApart(cfg, before);
      var s, t := Run(cfg, before), Run(cfg, datagrams);
      var ticked, after := TurnTicksOnce(s, cfg, d);
      forall i | 0 <= i < |t.sent| && IsTick(t.sent[i])
        ensures t.peer.progress.sentElapsed && 0 < ClockOf(cfg, datagrams, i) <= t.peer.progress.lastTickAt
      {
        if i < |s.sent| { assert t.sent[i] == s.sent[i]; }
      }
      forall i, j | 0 <= i < j < |t.sent| && IsTick(t.sent[i]) && IsTick(t.sent[j])
        ensures ClockOf(cfg, datagrams, j) - ClockOf(cfg, datagrams, i) >= TICK_INTERVAL_NS
      {
        assert i < |s.sent| && t.sent[i] == s.sent[i];
        if j < |s.sent| { assert t.sent[j] == s.sent[j]; }
      }
    }
  }
}
