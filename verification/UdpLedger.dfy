/** What the packets alone tell about combat, at every moment of every run: the client's mirror of the stats,
    the damage ledger, and the number of hits a hostile can take. */
module UdpLedger {
  import opened Bytes
  import opened UdpMessages
  import opened UdpProtocol
  import opened UdpCombat
  import opened UdpPeer
  import opened UdpRuns

  /** The account of the player or of an entity: damage named never exceeds life lost and equals it in exact
      runs; and a hostile is hit for six at most, and for less by the last hit only. */
  ghost predicate Account(s: Server, v: Victim, exact: bool)
    requires Present(s.peer.combat, v)
  {
    var e, damage, hits := Holder(s.peer.combat, v), Damage(s.sent, v), Hits(s.sent, v);
    && e.maxLife - e.life >= damage && (exact ==> e.maxLife - e.life == damage)
    && (v.Entity? && e.category == HOSTILE ==>
          damage <= PLAYER_DAMAGE * hits < damage + PLAYER_DAMAGE && (e.life > 0 ==> PLAYER_DAMAGE * hits == damage))
  }

  /** A client that replays the stat updates holds the stats behind an id. Where an entity has the player's id
      it holds the stats of one of the two. */
  ghost predicate Mirrored(s: Server, id: u16) {
    var c, shown := s.peer.combat, Shown(s.sent, id);
    if id == c.playerId then
      shown == Some(Stat(id, c.player).message) || (id in c.entities && shown == Some(Stat(id, c.entities[id]).message))
    else id in c.entities ==> shown == Some(Stat(id, c.entities[id]).message)
  }

  ghost predicate NoHits(sent: seq<Sent>) { forall f <- sent :: f.Framed? ==> !f.message.HitRelation? }

  ghost predicate CombatInv(s: Server, exact: bool) {
    var c, p := s.peer.combat, s.peer.progress;
    && WellFormed(c) && c.playerId == DEFAULT_PLAYER
    && (forall v: Victim :: Present(c, v) ==> Account(s, v, exact))
    && (p.sentStats ==> forall id: u16 :: Mirrored(s, id))
    && (!p.sentSync ==> c.entities == map[] && NoHits(s.sent))
    && (p.sentStats ==> p.sentElapsed) && (p.sentElapsed ==> p.sentSync)
  }

  lemma QuietKeepsCombat(s: Server, t: Server, exact: bool)
    requires CombatInv(s, exact) && Quiet(s, t)
    ensures CombatInv(t, exact)
  {
    forall v: Victim | Present(t.peer.combat, v) ensures Account(t, v, exact) { assert Account(s, v, exact); }
    if t.peer.progress.sentStats { forall id: u16 ensures Mirrored(t, id) { assert Mirrored(s, id); } }
  }

  // ---------------------------------------------------------------- one combat packet

  /** Only a clear request takes life without naming a hit. */
  predicate Tells(c: Combat, packet: DecodedPacket, o: Outcome, id: u16, v: Victim) {
    Told(c, o, id, v, !IsClear(packet))
  }

  /** All that the ledger needs to know about the rules of combat. */
  ghost predicate Ruled(rules: Rules) {
    && Fair(rules)
    && (forall c: Combat, packet: DecodedPacket, id: u16, v: Victim :: Tells(c, packet, rules(c, packet), id, v))
  }

  lemma NativeRules(cfg: NativeConfig)
    ensures Ruled(cfg.rules)
  {
    NativeRulesAreFair(cfg);
    forall c: Combat, packet: DecodedPacket, id: u16, v: Victim
      ensures Tells(c, packet, cfg.rules(c, packet), id, v)
    {
      HandleTells(c, packet, id, v);
    }
  }

  /** What was told about a victim carries its account over. */
  lemma AccountCarried(s: Server, cfg: Config, packet: DecodedPacket, v: Victim, exact: bool)
    requires Ruled(cfg.rules) && Present(s.peer.combat, v) && Account(s, v, exact) &&
             s.peer.combat.playerId == DEFAULT_PLAYER
    requires exact ==> !IsClear(packet)
    ensures Present(Handled(s, cfg, packet).peer.combat, v) && Account(Handled(s, cfg, packet), v, exact)
  {
    HandledViews(s, cfg, packet, 0, v);
    assert Tells(s.peer.combat, packet, cfg.rules(s.peer.combat, packet), 0, v);
    assert Lawful(s.peer.combat, cfg.rules(s.peer.combat, packet));
  }

  lemma MirrorCarried(s: Server, cfg: Config, packet: DecodedPacket, id: u16)
    requires Ruled(cfg.rules) && Mirrored(s, id)
    ensures Mirrored(Handled(s, cfg, packet), id)
  {
    HandledViews(s, cfg, packet, id, ThePlayer);
    assert Tells(s.peer.combat, packet, cfg.rules(s.peer.combat, packet), id, ThePlayer);
    assert Lawful(s.peer.combat, cfg.rules(s.peer.combat, packet));
  }

  /** Before the sync there is nobody to strike. */
  lemma QuietBeforeSync(s: Server, cfg: Config, packet: DecodedPacket)
    requires Ruled(cfg.rules) && s.peer.combat.entities == map[] && NoHits(s.sent)
    ensures var t := Handled(s, cfg, packet);
            t.peer.combat.entities == map[] && NoHits(t.sent)
  {
    var o := cfg.rules(s.peer.combat, packet);
    HandledViews(s, cfg, packet, 0, ThePlayer);
    SendAllFrames(s.(peer := s.peer.(combat := o.combat), accepted := s.accepted + o.accepted), o.packets);
    assert Lawful(s.peer.combat, cfg.rules(s.peer.combat, packet));
    forall p | p in o.packets ensures !p.message.HitRelation? { assert LegalHit(s.peer.combat, p.message); }
  }

  lemma HandledKeepsCombat(s: Server, cfg: Config, packet: DecodedPacket, exact: bool)
    requires Ruled(cfg.rules) && CombatInv(s, exact) && (exact ==> !IsClear(packet))
    ensures CombatInv(Handled(s, cfg, packet), exact)
  {
    var c, t := s.peer.combat, Handled(s, cfg, packet);
    HandledViews(s, cfg, packet, 0, ThePlayer);
    assert Lawful(c, cfg.rules(c, packet));
    forall v: Victim | Present(t.peer.combat, v) ensures Account(t, v, exact) {
      AccountCarried(s, cfg, packet, v, exact);
    }
    if t.peer.progress.sentStats { forall id: u16 ensures Mirrored(t, id) { MirrorCarried(s, cfg, packet, id); } }
    if !s.peer.progress.sentSync { QuietBeforeSync(s, cfg, packet); }
  }

  // ---------------------------------------------------------------- the other moves

  lemma {:induction false} NoHitsNoDamage(sent: seq<Sent>, v: Victim)
    requires NoHits(sent)
    ensures Damage(sent, v) == 0 && Hits(sent, v) == 0
  {
    if sent != [] { NoHitsNoDamage(sent[..|sent| - 1], v); }
  }

  /** Nobody has been hurt and nobody has acted. */
  lemma FreshStart(t: Server, spawns: seq<Spawn>, exact: bool)
    requires t.peer.combat == StartingCombat(spawns) && t.peer.combat.playerId == DEFAULT_PLAYER
    requires NoHits(t.sent)
    requires t.peer.progress.sentSync && !t.peer.progress.sentStats && !t.peer.progress.sentElapsed
    ensures CombatInv(t, exact)
  {
    CombatTableFresh(spawns);
    forall v: Victim | Present(t.peer.combat, v) ensures Account(t, v, exact) { NoHitsNoDamage(t.sent, v); }
  }

  lemma WorldHitsNobody(s: Server, world: World)
    requires NoHits(s.sent)
    ensures NoHits(SendAll(s, OnReliable(WorldMessages(world))).sent)
  {
    SendAllFrames(s, OnReliable(WorldMessages(world)));
  }

  lemma AttemptKeepsCombat(s: Server, t: Server, exact: bool)
    requires CombatInv(s, exact) && !s.peer.progress.sentSync && t.peer.combat == s.peer.combat
    requires t.sent == s.sent
    requires t.peer.progress == s.peer.progress.(sentSync := true)
    ensures CombatInv(t, exact)
  {
    forall v: Victim | Present(t.peer.combat, v) ensures Account(t, v, exact) { assert Account(s, v, exact); }
  }

  lemma SyncKeepsCombat(s: Server, cfg: Config, ctx: Option<SyncContext>, now: nat, exact: bool)
    requires CombatInv(s, exact) && !s.peer.progress.sentSync
    ensures CombatInv(InitialSync(s, cfg, ctx, now), exact)
  {
    var t := InitialSync(s, cfg, ctx, now);
    var world, started := SyncViews(s, cfg, ctx, now, 0, ThePlayer);
    if world.Some? {
      WorldHitsNobody(started, world.value);
      FreshStart(t, world.value.entities, exact);
    } else {
      AttemptKeepsCombat(s, t, exact);
    }
  }

  lemma {:induction false} StatMessagesShow(c: Combat, ids: seq<u16>, id: u16)
    ensures LastStat(OnReliable(StatMessages(c, ids)), id) ==
            if id in ids && id in c.entities then Some(Stat(id, c.entities[id]).message) else None
  {
    if ids != [] {
      StatMessagesShow(c, ids[1..], id);
      if ids[0] in c.entities {
        assert OnReliable(StatMessages(c, ids))[1..] == OnReliable(StatMessages(c, ids[1..]));
      }
    }
  }

  lemma StatsShow(s: Server, cfg: Config, id: u16)
    requires ValidConfig(cfg) && !s.peer.progress.sentStats
    ensures var c, last := s.peer.combat, LastStat(StatsPackets(s, cfg), id);
            if id in c.entities then last == Some(Stat(id, c.entities[id]).message)
            else id == c.playerId ==> last == Some(Stat(id, c.player).message)
  {
    var c := s.peer.combat;
    assert Enumerates(cfg.order(c.entities), c.entities.Keys);
    StatMessagesShow(c, cfg.order(c.entities), id);
    assert OnReliable(StatsBlock(c, cfg))[1..] == OnReliable(StatMessages(c, cfg.order(c.entities)));
  }

  lemma BeginKeepsCombat(s: Server, cfg: Config, now: nat, exact: bool)
    requires CombatInv(s, exact) && ValidConfig(cfg) && s.peer.progress.sentSync && !s.peer.progress.sentElapsed
    ensures CombatInv(StartElapsedPhase(s, cfg, now), exact)
  {
    var t := StartElapsedPhase(s, cfg, now);
    var packets := StatsViews(s, cfg, 0, ThePlayer);
    var u, ms := BeginViews(s, cfg, now, 0, ThePlayer);
    forall v: Victim | Present(t.peer.combat, v) ensures Account(t, v, exact) {
      var p := StatsViews(s, cfg, 0, v);
      var w, m := BeginViews(s, cfg, now, 0, v);
      assert Account(s, v, exact);
    }
    forall id: u16 ensures Mirrored(t, id) {
      var p := StatsViews(s, cfg, id, ThePlayer);
      var w, m := BeginViews(s, cfg, now, id, ThePlayer);
      StatsShow(s, cfg, id);
    }
    SendAllFrames(s, packets);
  }

  /** Every move but a clear request keeps the combat invariant, exact or not; a clear keeps the other one. */
  lemma MoveKeepsCombat(s: Server, cfg: Config, m: Move, exact: bool)
    requires CombatInv(s, exact) && ValidConfig(cfg) && Ruled(cfg.rules) && Enabled(s, m) && (exact ==> !IsClearing(m))
    ensures CombatInv(Apply(s, cfg, m), exact)
  {
    match m {
      case Event(packet, now) =>
        var t := if cfg.gameplaySync then Handled(s, cfg, packet) else s;
        if cfg.gameplaySync { HandledKeepsCombat(s, cfg, packet, exact); }
        CheckTerminalOnlyQueues(t, cfg, now, false);
        QuietKeepsCombat(t, CheckTerminal(t, cfg, now, false), exact);
      case Synchronise(context, now) => SyncKeepsCombat(s, cfg, context, now, exact);
      case Begin(now) => BeginKeepsCombat(s, cfg, now, exact);
      case _ =>
        QuietMoves(s, cfg, m);
        QuietKeepsCombat(s, Apply(s, cfg, m), exact);
    }
  }

  // ---------------------------------------------------------------- whole runs

  predicate IsClearing(m: Move) { m.Event? && IsClear(m.packet) }

  ghost predicate ClearFree(datagrams: seq<Datagram>) {
    forall d <- datagrams, packet <- CombatPackets(d) :: !IsClear(packet)
  }

  lemma NewServerCombat(exact: bool)
    ensures CombatInv(NEW_SERVER, exact)
  {
  }

  /** The combat invariant in the middle of every run, exact as long as no clear request came. */
  lemma RunCombat(cfg: NativeConfig, datagrams: seq<Datagram>, d: Datagram, k: nat)
    requires ValidConfig(cfg) && k <= |Moves(Run(cfg, datagrams), cfg, d)|
    ensures CombatInv(Midway(cfg, datagrams, d, k), ClearFree(datagrams + [d]))
  {
    NativeRules(cfg);
    RuledCombat(cfg, datagrams, d, k);
  }

  lemma RuledCombat(cfg: Config, datagrams: seq<Datagram>, d: Datagram, k: nat)
    requires Ruled(cfg.rules) && ValidConfig(cfg) && k <= |Moves(Run(cfg, datagrams), cfg, d)|
    ensures CombatInv(Midway(cfg, datagrams, d, k), ClearFree(datagrams + [d]))
  {
    var exact := ClearFree(datagrams + [d]);
    var ok := (m: Move) => exact ==> !IsClearing(m);
    var inv := (s: Server) => CombatInv(s, exact);
    NewServerCombat(exact);
    forall s: Server, m: Move | inv(s) && ok(m) && Enabled(s, m) ensures inv(Apply(s, cfg, m)) {
      MoveKeepsCombat(s, cfg, m, exact);
    }
    assert AllOk(datagrams + [d], ok);
    assert d in datagrams + [d];
    Always(cfg, datagrams, inv, ok);
    AlwaysMidway(cfg, datagrams, d, k, inv, ok);
  }

  /** From the moment the initial stats are sent, after each packet, a client that only replays the stat
      updates holds exactly the server's life and spirit for every entity and for the player. Only where a
      mission gives an entity the player's id does the client hold the stats of one of the two. */
  lemma ClientMirrorsServer(cfg: NativeConfig, datagrams: seq<Datagram>, d: Datagram, k: nat, id: u16)
    requires ValidConfig(cfg) && k <= |Moves(Run(cfg, datagrams), cfg, d)|
    requires Midway(cfg, datagrams, d, k).peer.progress.sentStats
    ensures var s := Midway(cfg, datagrams, d, k); var c, shown := s.peer.combat, Shown(s.sent, id);
            if id == c.playerId then
              shown == Some(StatUpdate(id, c.player.life, c.player.maxLife, c.player.spirit)) ||
              (id in c.entities && shown == Some(Stat(id, c.entities[id]).message))
            else
              id in c.entities ==>
                shown == Some(StatUpdate(id, c.entities[id].life, c.entities[id].maxLife, c.entities[id].spirit))
  {
    RunCombat(cfg, datagrams, d, k);
    assert Mirrored(Midway(cfg, datagrams, d, k), id);
  }

  /** The damage ledger: without clear requests the life the player or an entity has lost is the sum of the
      damage in the hit relations that strike it; with them it is never less. */
  lemma DamageLedger(cfg: NativeConfig, datagrams: seq<Datagram>, d: Datagram, k: nat, v: Victim)
    requires ValidConfig(cfg) && k <= |Moves(Run(cfg, datagrams), cfg, d)|
    ensures var s := Midway(cfg, datagrams, d, k);
            Present(s.peer.combat, v) ==>
              var e := Holder(s.peer.combat, v);
              && Damage(s.sent, v) <= e.maxLife - e.life
              && (ClearFree(datagrams + [d]) ==> Damage(s.sent, v) == e.maxLife - e.life)
  {
    var s := Midway(cfg, datagrams, d, k);
    RunCombat(cfg, datagrams, d, k);
    if Present(s.peer.combat, v) { assert Account(s, v, ClearFree(datagrams + [d])); }
  }

  predicate IsHostile(c: Combat, id: u16) { id in c.entities && c.entities[id].category == HOSTILE }

  /** A hostile of life L takes at most ceil(L / 6) hits over any run, and that many kill it. While it lives each of
      them took the full six, and without clear requests it has lost six for each of its hits, or all it had. */
  lemma HostileHitBound(cfg: NativeConfig, datagrams: seq<Datagram>, d: Datagram, k: nat, id: u16)
    requires ValidConfig(cfg) && k <= |Moves(Run(cfg, datagrams), cfg, d)|
    ensures var s := Midway(cfg, datagrams, d, k);
            IsHostile(s.peer.combat, id) ==>
              var e, hits := s.peer.combat.entities[id], Hits(s.sent, Entity(id));
              var most := (e.maxLife as int + 5) / 6;
              && hits <= most && (hits == most ==> e.life == 0)
              && (ClearFree(datagrams + [d]) ==> e.life as int == Max(0, e.maxLife as int - 6 * hits))
  {
    var s := Midway(cfg, datagrams, d, k);
    RunCombat(cfg, datagrams, d, k);
    if IsHostile(s.peer.combat, id) {
      assert Account(s, Entity(id), ClearFree(datagrams + [d]));
      HitsFit(s.peer.combat.entities[id], Damage(s.sent, Entity(id)), Hits(s.sent, Entity(id)));
    }
  }

  lemma HitsFit(e: CombatEntity, damage: nat, hits: nat)
    requires damage <= e.maxLife - e.life
    requires damage <= 6 * hits < damage + 6 && (e.life > 0 ==> 6 * hits == damage)
    ensures hits <= (e.maxLife as int + 5) / 6 && (hits == (e.maxLife as int + 5) / 6 ==> e.life == 0)
    ensures damage == e.maxLife - e.life ==> e.life as int == Max(0, e.maxLife as int - 6 * hits)
  {
  }

  /** In every reachable state: life and spirit within bounds, and the dead are exactly those without life. */
  lemma CombatStaysWellFormed(cfg: NativeConfig, datagrams: seq<Datagram>, d: Datagram, k: nat)
    requires ValidConfig(cfg) && k <= |Moves(Run(cfg, datagrams), cfg, d)|
    ensures WellFormed(Midway(cfg, datagrams, d, k).peer.combat)
  {
    RunCombat(cfg, datagrams, d, k);
  }

  lemma MoveOnlyHarms(s: Server, cfg: Config, m: Move)
    requires s.peer.progress.sentSync && Enabled(s, m) && Fair(cfg.rules)
    ensures var t := Apply(s, cfg, m); t.peer.progress.sentSync && OnlyHarmed(s.peer.combat, t.peer.combat)
  {
    match m {
      case Event(packet, now) =>
        HandledViews(s, cfg, packet, 0, ThePlayer);
        assert Lawful(s.peer.combat, cfg.rules(s.peer.combat, packet));
        CheckTerminalOnlyQueues(if cfg.gameplaySync then Handled(s, cfg, packet) else s, cfg, now, false);
      case Begin(now) =>
        var packets := StatsViews(s, cfg, 0, ThePlayer);
        var u, ms := BeginViews(s, cfg, now, 0, ThePlayer);
      case _ => QuietMoves(s, cfg, m);
    }
  }

  /** After the initial sync nothing in a datagram raises a life or changes who takes part. */
  lemma LifeNeverRises(cfg: NativeConfig, datagrams: seq<Datagram>, d: Datagram, k: nat)
    requires Run(cfg, datagrams).peer.progress.sentSync && k <= |Moves(Run(cfg, datagrams), cfg, d)|
    ensures OnlyHarmed(Run(cfg, datagrams).peer.combat, Midway(cfg, datagrams, d, k).peer.combat)
  {
    NativeRulesAreFair(cfg);
    var c := Run(cfg, datagrams).peer.combat;
    var inv := (s: Server) => s.peer.progress.sentSync && OnlyHarmed(c, s.peer.combat);
    forall s: Server, m: Move | inv(s) && Enabled(s, m) ensures inv(Apply(s, cfg, m)) {
      MoveOnlyHarms(s, cfg, m);
      HarmedTwice(c, s.peer.combat, Apply(s, cfg, m).peer.combat);
    }
    AlwaysMidway(cfg, datagrams, d, k, inv, m => true);
  }

  lemma HarmedTwice(a: Combat, b: Combat, c: Combat)
    requires OnlyHarmed(a, b) && OnlyHarmed(b, c)
    ensures OnlyHarmed(a, c)
  {
    forall id | id in a.entities ensures Harmed(a.entities[id], c.entities[id]) {
      assert Harmed(a.entities[id], b.entities[id]) && Harmed(b.entities[id], c.entities[id]);
    }
  }

  // ---------------------------------------------------------------- an order there is

  /** The keys of a table from an id on, in order. */
  function KeysFrom(m: map<u16, CombatEntity>, id: nat): seq<u16>
    decreases 0x1_0000 - id
  {
    if id >= 0x1_0000 then [] else (if id in m then [id as u16] else []) + KeysFrom(m, id + 1)
  }

  lemma {:induction false} KeysFromEnumerates(m: map<u16, CombatEntity>, id: nat)
    ensures var keys := KeysFrom(m, id);
            && (forall x: u16 :: x in keys <==> x in m && x >= id)
            && forall i, j :: 0 <= i < j < |keys| ==> keys[i] < keys[j]
    decreases 0x1_0000 - id
  {
    if id < 0x1_0000 {
      var later := KeysFrom(m, id + 1);
      KeysFromEnumerates(m, id + 1);
      forall i | 0 <= i < |later| ensures later[i] as int > id { assert later[i] in later; }
    }
  }

  /** The order of a hash map may for instance be that of the keys. */
  const ORDERED: NativeConfig := Config(true, true, true, (m: map<u16, CombatEntity>) => KeysFrom(m, 0), Handle)

  lemma OrderedIsValid()
    ensures ValidConfig(ORDERED)
  {
    forall m: map<u16, CombatEntity> ensures Enumerates(ORDERED.order(m), m.Keys) { KeysFromEnumerates(m, 0); }
  }
}
