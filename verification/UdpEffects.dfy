/** What every combat packet comes to, read from its own words: a strike lands, an action of an entity counts, a clear
    clears, and everything else changes nothing. */
module UdpEffects {
  import opened Bytes
  import opened UdpMessages
  import opened UdpProtocol
  import opened UdpCombat
  import opened UdpPeer
  import opened UdpRuns
  import opened UdpMoments
  import opened UdpLedger

  // ---------------------------------------------------------------- what a packet asks for

  /** An action names its source and its target in its first two words and a motion in its tail. */
  predicate IsAction(packet: DecodedPacket) {
    && packet.opcode == 0x03 && |packet.payload| >= 24
    && WordAt(packet.payload, 2) != 0xFFFF && Utf16Tail(packet.payload, 24) != []
  }

  /** The player strikes a living hostile. */
  predicate Strikes(c: Combat, packet: DecodedPacket) {
    && IsAction(packet) && WordAt(packet.payload, 0) == c.playerId
    && var target := WordAt(packet.payload, 2);
       target in c.entities && c.entities[target].life > 0 && c.entities[target].category == 3
  }

  /** A living entity acts, whatever it aims at. */
  predicate Acts(c: Combat, packet: DecodedPacket) {
    && IsAction(packet)
    && var source := WordAt(packet.payload, 0);
       source != c.playerId && source in c.entities && c.entities[source].life > 0
  }

  /** A clear request for somebody who has life or spirit left. */
  predicate Clears(c: Combat, packet: DecodedPacket) {
    && packet.opcode == 0x07 && |packet.payload| >= 2
    && var id := WordAt(packet.payload, 0);
       if id == c.playerId then c.player.life > 0 || c.player.spirit > 0
       else id in c.entities && (c.entities[id].life > 0 || c.entities[id].spirit > 0)
  }

  /** An ultimate attack of the player, named in the second word. */
  predicate Spends(c: Combat, packet: DecodedPacket) {
    packet.opcode == 0x3c && |packet.payload| >= 4 && WordAt(packet.payload, 2) == c.playerId
  }

  /** Every other packet is without effect. */
  lemma OthersDoNothing(c: Combat, packet: DecodedPacket)
    requires !Strikes(c, packet) && !Acts(c, packet) && !Clears(c, packet) && !Spends(c, packet)
    ensures Handle(c, packet) == Outcome(c, [], [])
  {
  }

  // ---------------------------------------------------------------- the packets of a hit

  predicate Digits(text: utf16) { text != [] && forall ch <- text :: 0x30 <= ch <= 0x39 }

  /** The motion a target answers an event with. */
  ghost predicate Responds(answer: utf16, event: utf16) {
    && (event == Units("down1") ==> answer == Units("down1#0"))
    && (event == ULTIMATE_START ==> answer == SPECIAL_DAMAGE)
    && (forall digits: utf16 :: Digits(digits) && event == ULTIMATE_ATTACK + digits ==>
          answer == Units("damage") + digits)
    && (event == Units("down1") || event == ULTIMATE_START || answer == event ||
        exists digits: utf16 :: Digits(digits) && event == ULTIMATE_ATTACK + digits)
  }

  /** The four packets of a hit, from the words of the action: a blow that kills shows the motions of a death, and any
      other the client's own motion, or a standard one for a blend. */
  ghost predicate ShowsHit(packets: seq<Outgoing>, payload: bytes, index: u16, damage: u16, killed: bool,
                           standard: utf16, deathTarget: utf16, deathEvent: utf16)
    requires |payload| >= 24
  {
    && |packets| == 4 && packets[2].message.TargetMotion? && packets[3].message.MotionEvent?
    && var source, target, motion := WordAt(payload, 0), WordAt(payload, 2), Utf16Tail(payload, 24);
       var tag, answer, event :=
         packets[2].message.motionTag, packets[2].message.motion, packets[3].message.eventMotion;
    && packets[0] == Outgoing(Sequenced, DamageNotice(source, damage))
    && packets[1] == Outgoing(Sequenced, HitRelation(source, target, index, damage, if event == GRAB_HIT then 1 else 0))
    && packets[2] == Outgoing(Unsequenced, TargetMotion(target, tag, answer))
    && packets[3] == Outgoing(Sequenced, MotionEvent(source, target, DoubleWordAt(payload, 4), tag,
                                                     WordAt(payload, 13), DoubleWordAt(payload, 17),
                                                     WordAt(payload, 21), 1, event))
    && (killed ==> answer == deathTarget && event == deathEvent)
    && (!killed ==> event == (if IsBlendMotion(motion) then standard else motion) && Responds(answer, event))
    && tag == (if killed || answer == Units("down1#0") then 0x3c00 else WordAt(payload, 11))
  }

  lemma SuffixIsDigits(event: utf16)
    ensures UltimateAttackSuffix(event) != [] ==>
              Digits(UltimateAttackSuffix(event)) && event == ULTIMATE_ATTACK + UltimateAttackSuffix(event)
    ensures forall digits: utf16 :: Digits(digits) && event == ULTIMATE_ATTACK + digits ==>
              UltimateAttackSuffix(event) == digits
  {
    forall digits: utf16 | Digits(digits) && event == ULTIMATE_ATTACK + digits
      ensures UltimateAttackSuffix(event) == digits
    {
      assert event[|ULTIMATE_ATTACK|..] == digits;
    }
  }

  lemma TargetResponds(motion: utf16, fallback: utf16)
    ensures Responds(SelectTargetMotion(motion, fallback), SelectEventMotion(motion, fallback))
  {
    var event := SelectEventMotion(motion, fallback);
    SuffixIsDigits(event);
    assert ULTIMATE_START[2] == 0xAE30 && ULTIMATE_ATTACK[2] == 0xACF5 && ULTIMATE_ATTACK[0] == 0xD544;
    assert Units("down1")[0] == 'd' as int;
    forall digits: utf16 | Digits(digits) && event == ULTIMATE_ATTACK + digits
      ensures event != Units("down1") && event != ULTIMATE_START
    {
      assert event[2] == 0xACF5 && event[0] == 0xD544;
    }
  }

  lemma HitIsShown(payload: bytes, index: u16, damage: u16, killed: bool, text: HitText)
    requires |payload| >= 24 && Utf16Tail(payload, 24) != []
    ensures ShowsHit(HitPackets(WordAt(payload, 0), WordAt(payload, 2), index, damage, killed, Utf16Tail(payload, 24),
                                text, ExtractFields(payload)),
                     payload, index, damage, killed, text.fallback, text.deathTarget, text.deathEvent)
  {
    TargetResponds(Utf16Tail(payload, 24), text.fallback);
  }

  // ---------------------------------------------------------------- what each kind of packet does

  /** Life after a blow, and spirit after a gain. */
  function Lost(e: CombatEntity, blow: u16): CombatEntity { e.(life := if e.life > blow then e.life - blow else 0) }

  function Gained(e: CombatEntity, gain: u16): CombatEntity {
    e.(spirit := if e.spirit as int + gain as int < 100 then e.spirit + gain else 100)
  }

  /** How much a blow takes. */
  function Taken(e: CombatEntity, blow: u16): u16 { if e.life > blow then blow else e.life }

  function Shows(id: u16, e: CombatEntity): Outgoing {
    Outgoing(Reliable, StatUpdate(id, e.life, e.maxLife, e.spirit))
  }

  /** One source has acted now and no other chain has changed. */
  ghost predicate OnlyChain(c: Combat, after: Combat, source: u16, target: u16, tick: u32) {
    && source in after.chains && after.chains == c.chains[source := after.chains[source]]
    && var chain := after.chains[source];
       chain.source == source && chain.target == target && chain.tick == tick && chain.active
  }

  lemma BehindTwo(first: Outgoing, second: Outgoing, rest: seq<Outgoing>)
    ensures var all := [first] + ([second] + rest); all[0] == first && all[1] == second && all[2..] == rest
  {
  }

  lemma AttackLands(c: Combat, target: u16, fields: ActionFields, motion: utf16)
    requires target in c.entities && c.entities[target].life > 0 && c.entities[target].category == 3
    ensures var o, e := PlayerAttack(c, target, fields, motion), c.entities[target];
            && o.combat.entities == c.entities[target := Gained(Lost(e, 6), 4)]
            && o.combat.player == Gained(c.player, 1) && o.combat.playerId == c.playerId
            && o.combat.dead == (if e.life <= 6 then c.dead + {target} else c.dead)
            && OnlyChain(c, o.combat, c.playerId, target, fields.tick) &&
               o.accepted == [Action(c.playerId, fields.tick)]
  {
  }

  /** A strike takes six lives of the hostile, or those it has left; it gives the hostile four of spirit and the player
      one, within a hundred, and a hostile without life left is among the dead. */
  lemma StrikeLands(c: Combat, packet: DecodedPacket)
    requires Strikes(c, packet)
    ensures var o, target := Handle(c, packet), WordAt(packet.payload, 2); var e, after := c.entities[target], o.combat;
            && after.entities == c.entities[target := Gained(Lost(e, 6), 4)] && after.player == Gained(c.player, 1)
            && after.playerId == c.playerId && after.dead == (if e.life <= 6 then c.dead + {target} else c.dead)
            && OnlyChain(c, after, c.playerId, target, DoubleWordAt(packet.payload, 4))
            && o.accepted == [Action(c.playerId, DoubleWordAt(packet.payload, 4))]
  {
    AttackLands(c, WordAt(packet.payload, 2), ExtractFields(packet.payload), Utf16Tail(packet.payload, 24));
  }

  /** Both stats and the hit are told. */
  lemma StrikeIsShown(c: Combat, packet: DecodedPacket)
    requires Strikes(c, packet)
    ensures var o, target := Handle(c, packet), WordAt(packet.payload, 2); var e := c.entities[target];
            && |o.packets| == 6
            && o.packets[0] == Shows(target, Gained(Lost(e, 6), 4)) &&
               o.packets[1] == Shows(c.playerId, Gained(c.player, 1))
            && c.playerId in o.combat.chains
            && ShowsHit(o.packets[2..], packet.payload, o.combat.chains[c.playerId].index, Taken(e, 6), e.life <= 6,
                        Units("damage1"), Units("death"), Units("death"))
  {
    var o, hit := StrikePackets(c, packet);
    BehindTwo(o.packets[0], o.packets[1], hit);
  }

  lemma AttackPackets(c: Combat, target: u16, fields: ActionFields, motion: utf16)
    requires target in c.entities && c.entities[target].life > 0 && c.entities[target].category == 3
    ensures var o, e := PlayerAttack(c, target, fields, motion), c.entities[target];
            && c.playerId in o.combat.chains
            && o.packets == [Shows(target, Gained(Lost(e, 6), 4)), Shows(c.playerId, Gained(c.player, 1))] +
                            HitPackets(c.playerId, target, o.combat.chains[c.playerId].index, Taken(e, 6), e.life <= 6,
                                       motion, MONSTER_HIT, fields)
  {
  }

  lemma TwoInFront(first: Outgoing, second: Outgoing, rest: seq<Outgoing>)
    ensures [first, second] + rest == [first] + ([second] + rest)
  {
  }

  lemma StrikePackets(c: Combat, packet: DecodedPacket) returns (o: Outcome, hit: seq<Outgoing>)
    requires Strikes(c, packet)
    ensures o == Handle(c, packet) && c.playerId in o.combat.chains
    ensures var target := WordAt(packet.payload, 2); var e := c.entities[target];
            && o.packets == [Shows(target, Gained(Lost(e, 6), 4))] + ([Shows(c.playerId, Gained(c.player, 1))] + hit)
            && ShowsHit(hit, packet.payload, o.combat.chains[c.playerId].index, Taken(e, 6), e.life <= 6,
                        Units("damage1"), Units("death"), Units("death"))
  {
    var payload, target := packet.payload, WordAt(packet.payload, 2);
    var e := c.entities[target];
    o := Handle(c, packet);
    var index := o.combat.chains[c.playerId].index;
    AttackPackets(c, target, ExtractFields(payload), Utf16Tail(payload, 24));
    HitIsShown(payload, index, Taken(e, 6), e.life <= 6, MONSTER_HIT);
    hit := HitPackets(c.playerId, target, index, Taken(e, 6), e.life <= 6, Utf16Tail(payload, 24), MONSTER_HIT,
                      ExtractFields(payload));
    TwoInFront(Shows(target, Gained(Lost(e, 6), 4)), Shows(c.playerId, Gained(c.player, 1)), hit);
  }

  /** Whom the action of an entity hurts: the player, or a living objective. */
  predicate HurtsPlayer(c: Combat, packet: DecodedPacket)
    requires |packet.payload| >= 24
  {
    WordAt(packet.payload, 2) == c.playerId && c.player.life > 0
  }

  predicate HurtsObjective(c: Combat, packet: DecodedPacket)
    requires |packet.payload| >= 24
  {
    var target := WordAt(packet.payload, 2);
    && target != c.playerId && target in c.entities && c.entities[target].life > 0
    && c.entities[target].category == 2
  }

  lemma NpcCounts(c: Combat, source: u16, target: u16, fields: ActionFields, motion: utf16)
    requires source != c.playerId && source in c.entities && c.entities[source].life > 0
    ensures var o := NpcAttack(c, source, target, fields, motion);
            && OnlyChain(c, o.combat, source, target, fields.tick) && o.accepted == [Action(source, fields.tick)]
            && o.combat.playerId == c.playerId
            && o.packets != [] && o.packets[0] == Shows(source, Gained(c.entities[source], 3))
  {
  }

  /** An action of a living entity counts and gives it three of spirit, whether or not it hurts anybody. */
  lemma ActionCounts(c: Combat, packet: DecodedPacket)
    requires Acts(c, packet)
    ensures var o, source, target := Handle(c, packet), WordAt(packet.payload, 0), WordAt(packet.payload, 2);
            var actor := Gained(c.entities[source], 3);
            && OnlyChain(c, o.combat, source, target, DoubleWordAt(packet.payload, 4))
            && o.accepted == [Action(source, DoubleWordAt(packet.payload, 4))]
            && o.combat.playerId == c.playerId
            && o.packets != [] && o.packets[0] == Shows(source, actor)
            && (!HurtsPlayer(c, packet) && !HurtsObjective(c, packet) ==>
                  && |o.packets| == 1 && o.combat.entities == c.entities[source := actor]
                  && o.combat.player == c.player && o.combat.dead == c.dead)
  {
    NpcCounts(c, WordAt(packet.payload, 0), WordAt(packet.payload, 2), ExtractFields(packet.payload),
              Utf16Tail(packet.payload, 24));
  }

  /** One that is aimed at the player takes five lives, or those left. */
  lemma PlayerIsHurt(c: Combat, packet: DecodedPacket)
    requires Acts(c, packet) && HurtsPlayer(c, packet)
    ensures var o, source := Handle(c, packet), WordAt(packet.payload, 0);
            && o.combat.entities == c.entities[source := Gained(c.entities[source], 3)]
            && o.combat.player == Lost(c.player, 5) && o.combat.dead == c.dead
  {
  }

  lemma PlayerHurtIsShown(c: Combat, packet: DecodedPacket)
    requires Acts(c, packet) && HurtsPlayer(c, packet)
    ensures var o, source := Handle(c, packet), WordAt(packet.payload, 0);
            && |o.packets| == 6 && o.packets[1] == Shows(c.playerId, Lost(c.player, 5)) && source in o.combat.chains
            && ShowsHit(o.packets[2..], packet.payload, o.combat.chains[source].index, Taken(c.player, 5),
                        c.player.life <= 5, Units("damage3"), Units("down1#0"), Units("down1"))
  {
    var o, hit := PlayerHurtPackets(c, packet);
    BehindTwo(o.packets[0], o.packets[1], hit);
  }

  lemma PlayerHurtPackets(c: Combat, packet: DecodedPacket) returns (o: Outcome, hit: seq<Outgoing>)
    requires Acts(c, packet) && HurtsPlayer(c, packet)
    ensures o == Handle(c, packet) && WordAt(packet.payload, 0) in o.combat.chains
    ensures |o.packets| > 0 && o.packets == [o.packets[0]] + ([Shows(c.playerId, Lost(c.player, 5))] + hit)
    ensures ShowsHit(hit, packet.payload, o.combat.chains[WordAt(packet.payload, 0)].index, Taken(c.player, 5),
                     c.player.life <= 5, Units("damage3"), Units("down1#0"), Units("down1"))
  {
    var payload, source := packet.payload, WordAt(packet.payload, 0);
    o := Handle(c, packet);
    var index := o.combat.chains[source].index;
    HitIsShown(payload, index, Taken(c.player, 5), c.player.life <= 5, PLAYER_HIT);
    hit := HitPackets(source, c.playerId, index, Taken(c.player, 5), c.player.life <= 5, Utf16Tail(payload, 24),
                      PLAYER_HIT, ExtractFields(payload));
  }

  lemma NpcHurts(c: Combat, source: u16, target: u16, fields: ActionFields, motion: utf16)
    requires source != c.playerId && source in c.entities && c.entities[source].life > 0
    requires target != c.playerId && target in c.entities && c.entities[target].life > 0
    requires c.entities[target].category == 2
    ensures var o, acted := NpcAttack(c, source, target, fields, motion),
            c.entities[source := Gained(c.entities[source], 3)];
            && o.combat.entities == acted[target := Lost(acted[target], 5)] && o.combat.player == c.player
            && o.combat.dead == (if c.entities[target].life <= 5 then c.dead + {target} else c.dead)
  {
  }

  /** One that is aimed at a living objective takes five of its lives, or those left. */
  lemma ObjectiveIsHurt(c: Combat, packet: DecodedPacket)
    requires Acts(c, packet) && HurtsObjective(c, packet)
    ensures var o, source, target := Handle(c, packet), WordAt(packet.payload, 0), WordAt(packet.payload, 2);
            var acted := c.entities[source := Gained(c.entities[source], 3)];
            && o.combat.entities == acted[target := Lost(acted[target], 5)] && o.combat.player == c.player
            && o.combat.dead == (if c.entities[target].life <= 5 then c.dead + {target} else c.dead)
  {
    NpcHurts(c, WordAt(packet.payload, 0), WordAt(packet.payload, 2), ExtractFields(packet.payload),
             Utf16Tail(packet.payload, 24));
  }

  lemma ObjectiveHurtIsShown(c: Combat, packet: DecodedPacket)
    requires Acts(c, packet) && HurtsObjective(c, packet)
    ensures var o, source, target := Handle(c, packet), WordAt(packet.payload, 0), WordAt(packet.payload, 2);
            var e := c.entities[target];
            && |o.packets| == 6 && target in o.combat.entities && source in o.combat.chains
            && o.packets[1] == Shows(target, o.combat.entities[target])
            && ShowsHit(o.packets[2..], packet.payload, o.combat.chains[source].index, Taken(e, 5), e.life <= 5,
                        Units("damage3"), Units("death"), Units("death"))
  {
    var o, hit := ObjectiveHurtPackets(c, packet);
    BehindTwo(o.packets[0], o.packets[1], hit);
  }

  lemma ObjectiveHurtPackets(c: Combat, packet: DecodedPacket) returns (o: Outcome, hit: seq<Outgoing>)
    requires Acts(c, packet) && HurtsObjective(c, packet)
    ensures o == Handle(c, packet) && WordAt(packet.payload, 0) in o.combat.chains
    ensures var target := WordAt(packet.payload, 2);
            && target in o.combat.entities && |o.packets| > 0
            && o.packets == [o.packets[0]] + ([Shows(target, o.combat.entities[target])] + hit)
    ensures var e := c.entities[WordAt(packet.payload, 2)];
            ShowsHit(hit, packet.payload, o.combat.chains[WordAt(packet.payload, 0)].index, Taken(e, 5), e.life <= 5,
                     Units("damage3"), Units("death"), Units("death"))
  {
    var payload, source, target := packet.payload, WordAt(packet.payload, 0), WordAt(packet.payload, 2);
    var e := c.entities[target];
    o := Handle(c, packet);
    var index := o.combat.chains[source].index;
    HitIsShown(payload, index, Taken(e, 5), e.life <= 5, OBJECTIVE_HIT);
    hit := HitPackets(source, target, index, Taken(e, 5), e.life <= 5, Utf16Tail(payload, 24), OBJECTIVE_HIT,
                      ExtractFields(payload));
  }

  /** A clear takes all life and spirit of the player or of an entity, and says so. */
  lemma ClearClears(c: Combat, packet: DecodedPacket)
    requires Clears(c, packet)
    ensures var o, id := Handle(c, packet), WordAt(packet.payload, 0);
            && o.accepted == []
            && if id == c.playerId then
                 var player := c.player.(life := 0, spirit := 0);
                 o.combat == c.(player := player) && o.packets == [Shows(id, player)]
               else
                 var e := c.entities[id].(life := 0, spirit := 0);
                 && o.combat == c.(entities := c.entities[id := e], dead := c.dead + {id})
                 && o.packets == [Shows(id, e)]
  {
  }

  /** An ultimate attack uses up the player's spirit and says so. */
  lemma UltimateSpends(c: Combat, packet: DecodedPacket)
    requires Spends(c, packet)
    ensures var player := c.player.(spirit := 0);
            Handle(c, packet) == Outcome(c.(player := player), [Shows(c.playerId, player)], [])
  {
  }

  // ---------------------------------------------------------------- every answer is sent

  lemma {:induction false} UnitsOfLength(data: bytes)
    ensures |UnitsOf(data)| == |data| / 2
  {
    if |data| >= 2 { UnitsOfLength(data[2..]); }
  }

  lemma TailLength(payload: bytes)
    requires 24 <= |payload| <= 0xFF
    ensures |Utf16Tail(payload, 24)| <= 115
  {
    if |payload| > 24 {
      var tail := payload[24..];
      UnitsOfLength(tail);
      if |tail| >= 2 { UnitsOfLength(tail[..|tail| - 2]); }
    }
  }

  lemma HitIsSendable(source: u16, target: u16, index: u16, damage: u16, dead: bool, motion: utf16, text: HitText,
                      fields: ActionFields)
    requires |motion| <= 115 && |text.fallback| <= 7 && |text.deathTarget| <= 7 && |text.deathEvent| <= 7
    ensures forall p <- HitPackets(source, target, index, damage, dead, motion, text, fields) :: Sendable(p.message)
  {
  }

  lemma StrikeIsSendable(c: Combat, target: u16, fields: ActionFields, motion: utf16)
    requires |motion| <= 115
    ensures forall p <- PlayerAttack(c, target, fields, motion).packets :: Sendable(p.message)
  {
    var o := PlayerAttack(c, target, fields, motion);
    if target in c.entities && o.packets != [] {
      HitIsSendable(c.playerId, target, o.combat.chains[c.playerId].index, Min(c.entities[target].life, PLAYER_DAMAGE),
                    o.combat.entities[target].life == 0, motion, MONSTER_HIT, fields);
    }
  }

  lemma ActionIsSendable(c: Combat, source: u16, target: u16, fields: ActionFields, motion: utf16)
    requires |motion| <= 115
    ensures forall p <- NpcAttack(c, source, target, fields, motion).packets :: Sendable(p.message)
  {
    if source in c.entities { HurtIsSendable(NpcActs(c, source, target, fields.tick), source, target, fields, motion); }
  }

  lemma HurtIsSendable(c: Combat, source: u16, target: u16, fields: ActionFields, motion: utf16)
    requires |motion| <= 115 && source in c.chains
    ensures forall p <- HitPlayer(c, source, fields, motion).packets :: Sendable(p.message)
    ensures forall p <- HitObjective(c, source, target, fields, motion).packets :: Sendable(p.message)
  {
    var o, index := HitPlayer(c, source, fields, motion), c.chains[source].index;
    HitIsSendable(source, c.playerId, index, Min(c.player.life, NPC_DAMAGE), o.combat.player.life == 0, motion,
                  PLAYER_HIT, fields);
    if target in c.entities {
      var e := c.entities[target];
      HitIsSendable(source, target, index, Min(e.life, NPC_DAMAGE), e.life - Min(e.life, NPC_DAMAGE) == 0, motion,
                    OBJECTIVE_HIT, fields);
    }
  }

  /** No answer to a packet of at most 255 bytes of payload is too long to be sent. */
  lemma AnswersAreSendable(c: Combat, packet: DecodedPacket)
    requires |packet.payload| <= 0xFF
    ensures forall p <- Handle(c, packet).packets :: Sendable(p.message)
  {
    if packet.opcode == 0x03 && |packet.payload| >= 24 {
      TailLength(packet.payload);
      var source, target := WordAt(packet.payload, 0), WordAt(packet.payload, 2);
      var fields, motion := ExtractFields(packet.payload), Utf16Tail(packet.payload, 24);
      StrikeIsSendable(c, target, fields, motion);
      ActionIsSendable(c, source, target, fields, motion);
    }
  }

  predicate IsFrameOf(f: Sent, p: Outgoing) { f.Framed? && f.channel == p.channel && f.message == p.message }

  /** A list of packets is sent in full, in its order. */
  ghost predicate SentInOrder(before: seq<Sent>, after: seq<Sent>, packets: seq<Outgoing>) {
    && before <= after && |after| == |before| + |packets|
    && forall i :: 0 <= i < |packets| ==> IsFrameOf(after[|before| + i], packets[i])
  }

  lemma {:induction false} SendAllInOrder(s: Server, packets: seq<Outgoing>)
    requires forall p <- packets :: Sendable(p.message)
    ensures SentInOrder(s.sent, SendAll(s, packets).sent, packets)
    decreases packets
  {
    if packets != [] {
      var t := Send(s, packets[0].channel, packets[0].message);
      SendAllInOrder(t, packets[1..]);
      forall i | 0 <= i < |packets| ensures IsFrameOf(SendAll(t, packets[1..]).sent[|s.sent| + i], packets[i]) {
        if i > 0 { assert packets[i] == packets[1..][i - 1]; }
      }
    }
  }

  // ---------------------------------------------------------------- over whole runs

  lemma {:induction false} EventsAt(packets: seq<DecodedPacket>, now: nat, j: nat)
    requires j < |packets|
    ensures |Events(packets, now)| == |packets| && Events(packets, now)[j] == Event(packets[j], now)
  {
    if j > 0 { EventsAt(packets[1..], now, j - 1); }
    else if |packets| > 1 { EventsAt(packets[1..], now, 0); }
  }

  /** Every packet for the combat handler that a datagram brings is handled in a move of its own, in their order. */
  lemma EveryPacketIsHandled(s: Server, cfg: Config, d: Datagram, j: nat)
    requires j < |CombatPackets(d)|
    ensures var k, moves := j + (if d.arrival.Single? then 1 else 0), Moves(s, cfg, d);
            k < |moves| && moves[k] == Event(CombatPackets(d)[j], d.now)
  {
    EventsAt(CombatPackets(d), d.now, j);
  }

  /** The state after a packet is the one its rules give, whoever sent it, and every answer goes out. */
  lemma PacketIsHandled(cfg: NativeConfig, datagrams: seq<Datagram>, d: Datagram, k: nat, packet: DecodedPacket)
    requires k < |Moves(Run(cfg, datagrams), cfg, d)| && cfg.gameplaySync
    requires Moves(Run(cfg, datagrams), cfg, d)[k] == Event(packet, d.now)
    ensures var s, t := Midway(cfg, datagrams, d, k), Midway(cfg, datagrams, d, k + 1);
            var o := Handle(s.peer.combat, packet);
            && t.peer.combat == o.combat && t.accepted == s.accepted + o.accepted
            && (|packet.payload| <= 0xFF ==> SentInOrder(s.sent, t.sent, o.packets))
            && forall v: Victim :: Hits(t.sent, v) == Hits(s.sent, v) + HitsOn(o.packets, DEFAULT_PLAYER, v)
  {
    var s, t := Midway(cfg, datagrams, d, k), Midway(cfg, datagrams, d, k + 1);
    var o := Handle(s.peer.combat, packet);
    MidwayNext(cfg, datagrams, d, k);
    EventHandled(s, cfg, packet, d.now);
  }

  lemma EventHandled(s: Server, cfg: NativeConfig, packet: DecodedPacket, now: nat)
    requires cfg.gameplaySync
    ensures var t, o := HandlePacket(s, cfg, packet, now), Handle(s.peer.combat, packet);
            && t.peer.combat == o.combat && t.accepted == s.accepted + o.accepted
            && (|packet.payload| <= 0xFF ==> SentInOrder(s.sent, t.sent, o.packets))
            && forall v: Victim :: Hits(t.sent, v) == Hits(s.sent, v) + HitsOn(o.packets, DEFAULT_PLAYER, v)
  {
    var o := Handle(s.peer.combat, packet);
    CheckTerminalOnlyQueues(Handled(s, cfg, packet), cfg, now, false);
    HandledViews(s, cfg, packet, 0, ThePlayer);
    forall v: Victim
      ensures Hits(Handled(s, cfg, packet).sent, v) == Hits(s.sent, v) + HitsOn(o.packets, DEFAULT_PLAYER, v)
    {
      HandledViews(s, cfg, packet, 0, v);
    }
    if |packet.payload| <= 0xFF {
      AnswersAreSendable(s.peer.combat, packet);
      SendAllInOrder(s.(peer := s.peer.(combat := o.combat), accepted := s.accepted + o.accepted), o.packets);
    }
  }

  lemma StrikeIsCounted(c: Combat, packet: DecodedPacket)
    requires Strikes(c, packet)
    ensures var target := WordAt(packet.payload, 2);
            HitsOn(Handle(c, packet).packets, c.playerId, Entity(target)) == 1
  {
    StrikeLands(c, packet);
    HandleTells(c, packet, 0, Entity(WordAt(packet.payload, 2)));
  }

  /** In the middle of any run a strike of the player lands: the hostile has six lives less, or none, one hit more has
      been told, and one action of the player more has been accepted. */
  lemma StrikeLandsInRun(cfg: NativeConfig, datagrams: seq<Datagram>, d: Datagram, k: nat, packet: DecodedPacket)
    requires ValidConfig(cfg) && cfg.gameplaySync && k < |Moves(Run(cfg, datagrams), cfg, d)|
    requires Moves(Run(cfg, datagrams), cfg, d)[k] == Event(packet, d.now)
    requires Strikes(Midway(cfg, datagrams, d, k).peer.combat, packet)
    ensures var s, t := Midway(cfg, datagrams, d, k), Midway(cfg, datagrams, d, k + 1);
            var target := WordAt(packet.payload, 2);
            var was := s.peer.combat.entities[target].life;
            && target in t.peer.combat.entities
            && t.peer.combat.entities[target].life == (if was > 6 then was - 6 else 0)
            && (was <= 6 ==> target in t.peer.combat.dead)
            && Hits(t.sent, Entity(target)) == Hits(s.sent, Entity(target)) + 1
            && t.accepted == s.accepted + [Action(DEFAULT_PLAYER, DoubleWordAt(packet.payload, 4))]
  {
    RunCombat(cfg, datagrams, d, k);
    PacketIsHandled(cfg, datagrams, d, k, packet);
    StrikeLands(Midway(cfg, datagrams, d, k).peer.combat, packet);
    StrikeIsCounted(Midway(cfg, datagrams, d, k).peer.combat, packet);
  }
}
