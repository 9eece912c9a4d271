/** The combat rules of one UDP peer: what a client packet does to the combat state, and the packets it
    makes the server send. */
module UdpCombat {
  import opened Bytes
  import opened UdpMessages
  import opened UdpProtocol

  const MAX_SPIRIT := 100
  const PLAYER_DAMAGE := 6
  const PLAYER_SPIRIT_GAIN := 1
  const MIN_TARGET_SPIRIT_GAIN := 4
  const NPC_DAMAGE := 5
  const NPC_SPIRIT_GAIN := 3
  const DEATH_MOTION_TAG: u16 := 0x3c00
  const COMBO_RESET_TICKS := 1800
  const OBJECTIVE: byte := 2
  const HOSTILE: byte := 3
  const NO_TARGET: u16 := 0xFFFF

  const GRAB_HIT: utf16 := [0xC7A1, 0xAE30, 0xD53C, 0xACA9]
  const SPECIAL_DAMAGE: utf16 := [0xD544, 0xC0B4, 0xAE30, 0xB370, 0xBBF8, 0xC9C0]
  const ULTIMATE_ATTACK: utf16 := [0xD544, 0xC0B4, 0xACF5, 0xACA9]
  const ULTIMATE_START: utf16 := [0xD544, 0xC0B4, 0xAE30, 0xC2DC, 0xC791]

  datatype CombatEntity = CombatEntity(life: u16, maxLife: u16, spirit: u16, category: byte)

  datatype HitChain = HitChain(source: u16, target: u16, tick: u32, index: u16, active: bool)

  const NO_CHAIN := HitChain(0, 0, 0, 0, false)

  datatype Combat = Combat(entities: map<u16, CombatEntity>, dead: set<u16>, player: CombatEntity, playerId: u16,
                           chains: map<u16, HitChain>)

  datatype Channel = Reliable | Sequenced | Unsequenced

  datatype Outgoing = Outgoing(channel: Channel, message: Message)

  /** An action that entered the hit chain of its source. */
  datatype Action = Action(source: u16, tick: u32)

  /** The state after a packet, the packets to send, and the actions that entered a hit chain. */
  datatype Outcome = Outcome(combat: Combat, packets: seq<Outgoing>, accepted: seq<Action>)

  function Unchanged(c: Combat): Outcome { Outcome(c, [], []) }

  // ---------------------------------------------------------------- motions

  predicate StartsWith(text: utf16, prefix: utf16) { prefix <= text }

  predicate BlendAt(motion: utf16, i: nat) { i + 6 <= |motion| && motion[i..i + 6] == Units("_blend") }

  predicate IsBlendMotion(motion: utf16) { exists i :: 0 <= i <= |motion| && BlendAt(motion, i) }

  function UltimateAttackSuffix(motion: utf16): utf16 {
    if !StartsWith(motion, ULTIMATE_ATTACK) then []
    else
      var suffix := motion[|ULTIMATE_ATTACK|..];
      if forall ch <- suffix :: '0' as int <= ch <= '9' as int then suffix else []
  }

  function SelectEventMotion(clientMotion: utf16, fallback: utf16): utf16 {
    if clientMotion == [] || IsBlendMotion(clientMotion) then fallback else clientMotion
  }

  function SelectTargetMotion(clientMotion: utf16, fallback: utf16): utf16 {
    var motion := SelectEventMotion(clientMotion, fallback);
    if motion == Units("down1") then Units("down1#0")
    else if motion == ULTIMATE_START then SPECIAL_DAMAGE
    else if UltimateAttackSuffix(motion) != [] then Units("damage") + UltimateAttackSuffix(motion)
    else motion
  }

  // ---------------------------------------------------------------- building blocks

  datatype ActionFields = ActionFields(tick: u32, motionTag: u16, field0a: u16, field0c: u32, field10: u16,
                                       field12: u16)

  function ExtractFields(payload: bytes): ActionFields
    requires |payload| >= 24
  {
    ActionFields(DoubleWordAt(payload, 4), WordAt(payload, 11), WordAt(payload, 13), DoubleWordAt(payload, 17),
                 WordAt(payload, 21), 1)
  }

  function AddClamped(value: u16, delta: u16, maximum: u16): u16 { Min(maximum, value as int + delta as int) }

  function TargetSpiritGain(damage: u16): u16 {
    if damage == 0 then 0 else Max(MIN_TARGET_SPIRIT_GAIN, damage / 2 + 1)
  }

  function NextHit(chain: HitChain, source: u16, target: u16, tick: u32): HitChain {
    var reset := !chain.active || tick < chain.tick || tick - chain.tick > COMBO_RESET_TICKS;
    HitChain(source, target, tick, if reset then 1 else (chain.index as int + 1) % 0x1_0000, true)
  }

  function ChainOf(c: Combat, source: u16): HitChain { if source in c.chains then c.chains[source] else NO_CHAIN }

  function Stat(id: u16, e: CombatEntity): Outgoing { Outgoing(Reliable, StatUpdate(id, e.life, e.maxLife, e.spirit)) }

  datatype HitText = HitText(fallback: utf16, deathTarget: utf16, deathEvent: utf16)

  const MONSTER_HIT := HitText(Units("damage1"), Units("death"), Units("death"))
  const PLAYER_HIT := HitText(Units("damage3"), Units("down1#0"), Units("down1"))
  const OBJECTIVE_HIT := HitText(Units("damage3"), Units("death"), Units("death"))

  /** The packets of one hit: its second packet is the only hit relation, none is reliable, none a stat update. */
  predicate TellsOneHit(packets: seq<Outgoing>, source: u16, target: u16, hitIndex: u16, damage: u16) {
    && |packets| == 4 && packets[1].message.HitRelation?
    && (var m := packets[1].message;
        m.source == source && m.target == target && m.hitIndex == hitIndex && m.damage == damage)
    && forall k :: 0 <= k < 4 ==>
         && packets[k].channel != Reliable && !packets[k].message.StatUpdate?
         && (packets[k].message.HitRelation? ==> k == 1)
  }

  function HitPackets(source: u16, target: u16, hitIndex: u16, damage: u16, dead: bool, clientMotion: utf16,
                      text: HitText, fields: ActionFields): (r: seq<Outgoing>)
    ensures TellsOneHit(r, source, target, hitIndex, damage)
  {
    var targetMotion := if dead then text.deathTarget else SelectTargetMotion(clientMotion, text.fallback);
    var eventMotion := if dead then text.deathEvent else SelectEventMotion(clientMotion, text.fallback);
    var tag := if dead || targetMotion == Units("down1#0") then DEATH_MOTION_TAG else fields.motionTag;
    [ Outgoing(Sequenced, DamageNotice(source, damage)),
      Outgoing(Sequenced, HitRelation(source, target, hitIndex, damage, if eventMotion == GRAB_HIT then 1 else 0)),
      Outgoing(Unsequenced, TargetMotion(target, tag, targetMotion)),
      Outgoing(Sequenced, MotionEvent(source, target, fields.tick, tag, fields.field0a, fields.field0c,
                                      fields.field10, fields.field12, eventMotion)) ]
  }

  // ---------------------------------------------------------------- the event handler

  function ClearLife(c: Combat, id: u16): Outcome {
    if id == c.playerId then
      if c.player.life == 0 && c.player.spirit == 0 then Unchanged(c)
      else
        var player := c.player.(life := 0, spirit := 0);
        Outcome(c.(player := player), [Stat(id, player)], [])
    else if id !in c.entities || (c.entities[id].life == 0 && c.entities[id].spirit == 0) then Unchanged(c)
    else
      var e := c.entities[id].(life := 0, spirit := 0);
      Outcome(c.(entities := c.entities[id := e], dead := c.dead + {id}), [Stat(id, e)], [])
  }

  function SpendSpirit(c: Combat, player: u16): Outcome {
    if player != c.playerId then Unchanged(c)
    else
      var spent := c.player.(spirit := 0);
      Outcome(c.(player := spent), [Stat(c.playerId, spent)], [])
  }

  function PlayerAttack(c: Combat, target: u16, fields: ActionFields, motion: utf16): Outcome {
    if target !in c.entities || c.entities[target].life == 0 || c.entities[target].category != HOSTILE then Unchanged(c)
    else
      var chain := NextHit(ChainOf(c, c.playerId), c.playerId, target, fields.tick);
      var e := c.entities[target];
      var damage := Min(e.life, PLAYER_DAMAGE);
      var later := e.(life := e.life - damage, spirit := AddClamped(e.spirit, TargetSpiritGain(damage), MAX_SPIRIT));
      var player := c.player.(spirit := AddClamped(c.player.spirit, PLAYER_SPIRIT_GAIN, MAX_SPIRIT));
      var after := c.(entities := c.entities[target := later], player := player,
                   dead := if later.life == 0 then c.dead + {target} else c.dead,
                   chains := c.chains[c.playerId := chain]);
      Outcome(after, [Stat(target, later), Stat(c.playerId, player)] +
                  HitPackets(c.playerId, target, chain.index, damage, later.life == 0, motion, MONSTER_HIT, fields),
              [Action(c.playerId, fields.tick)])
  }

  /** What every accepted NPC action does: the source gains spirit, says so, and its chain goes on. */
  function NpcActs(c: Combat, source: u16, target: u16, tick: u32): Combat
    requires source in c.entities
  {
    var e := c.entities[source];
    var later := e.(spirit := AddClamped(e.spirit, NPC_SPIRIT_GAIN, MAX_SPIRIT));
    c.(entities := c.entities[source := later],
       chains := c.chains[source := NextHit(ChainOf(c, source), source, target, tick)])
  }

  function HitPlayer(c: Combat, source: u16, fields: ActionFields, motion: utf16): Outcome
    requires source in c.chains
  {
    if c.player.life == 0 then Unchanged(c)
    else
      var damage := Min(c.player.life, NPC_DAMAGE);
      var player := c.player.(life := c.player.life - damage);
      Outcome(c.(player := player),
              [Stat(c.playerId, player)] +
              HitPackets(source, c.playerId, c.chains[source].index, damage, player.life == 0,
                         motion, PLAYER_HIT, fields),
              [])
  }

  function HitObjective(c: Combat, source: u16, target: u16, fields: ActionFields, motion: utf16): Outcome
    requires source in c.chains
  {
    if target !in c.entities || c.entities[target].life == 0 || c.entities[target].category != OBJECTIVE then
      Unchanged(c)
    else
      var e := c.entities[target];
      var damage := Min(e.life, NPC_DAMAGE);
      var later := e.(life := e.life - damage);
      Outcome(c.(entities := c.entities[target := later],
                 dead := if later.life == 0 then c.dead + {target} else c.dead),
              [Stat(target, later)] +
              HitPackets(source, target, c.chains[source].index, damage, later.life == 0,
                         motion, OBJECTIVE_HIT, fields),
              [])
  }

  function NpcAttack(c: Combat, source: u16, target: u16, fields: ActionFields, motion: utf16): Outcome {
    if source !in c.entities || c.entities[source].life == 0 then Unchanged(c)
    else
      var acted := NpcActs(c, source, target, fields.tick);
      var hit := if target == c.playerId then HitPlayer(acted, source, fields, motion)
                 else HitObjective(acted, source, target, fields, motion);
      Outcome(hit.combat, [Stat(source, acted.entities[source])] + hit.packets, [Action(source, fields.tick)])
  }

  /** The handler proper. It runs on every decoded packet, whether or not its inner checksum was good. */
  function Handle(c: Combat, packet: DecodedPacket): Outcome {
    var payload := packet.payload;
    if packet.opcode == 0x07 && |payload| >= 2 then ClearLife(c, WordAt(payload, 0))
    else if |payload| < 4 then Unchanged(c)
    else if packet.opcode == 0x3c then SpendSpirit(c, WordAt(payload, 2))
    else if packet.opcode != 0x03 || |payload| < 24 then Unchanged(c)
    else
      var source, target, motion := WordAt(payload, 0), WordAt(payload, 2), Utf16Tail(payload, 24);
      if target == NO_TARGET || motion == [] then Unchanged(c)
      else if source == c.playerId then PlayerAttack(c, target, ExtractFields(payload), motion)
      else NpcAttack(c, source, target, ExtractFields(payload), motion)
  }

  // ---------------------------------------------------------------- what is kept

  predicate WellFormedEntity(e: CombatEntity) { e.life <= e.maxLife && e.spirit <= MAX_SPIRIT }

  /** Life within bounds, and the dead set holds exactly the entities whose life is 0. */
  ghost predicate WellFormed(c: Combat) {
    && WellFormedEntity(c.player)
    && (forall id <- c.entities :: WellFormedEntity(c.entities[id]))
    && (forall id :: id in c.dead <==> id in c.entities && c.entities[id].life == 0)
  }

  /** No life rises, and nothing but life and spirit changes. */
  ghost predicate OnlyHarmed(c: Combat, after: Combat) {
    && after.playerId == c.playerId && after.entities.Keys == c.entities.Keys
    && Harmed(c.player, after.player)
    && forall id <- c.entities :: Harmed(c.entities[id], after.entities[id])
  }

  predicate Harmed(e: CombatEntity, later: CombatEntity) {
    later.life <= e.life && later.maxLife == e.maxLife && later.category == e.category
  }

  /** A hit relation names a hostile struck by the player, or an objective or the player struck by a
      living entity. */
  predicate LegalHit(c: Combat, m: Message) {
    m.HitRelation? ==>
      if m.source == c.playerId then
        m.target in c.entities && c.entities[m.target].category == HOSTILE && 0 < m.damage <= c.entities[m.target].life
      else
        && m.source in c.entities && c.entities[m.source].life > 0
        && if m.target == c.playerId then 0 < m.damage <= c.player.life
           else
             && m.target in c.entities && c.entities[m.target].category == OBJECTIVE
             && 0 < m.damage <= c.entities[m.target].life
  }

  /** An outcome keeps lives and the dead set in order, raises no life, strikes only whom the rules allow,
      and sends nothing reliable but stats. */
  ghost predicate Lawful(c: Combat, o: Outcome) {
    && (WellFormed(c) ==> WellFormed(o.combat))
    && OnlyHarmed(c, o.combat)
    && forall p <- o.packets :: LegalHit(c, p.message) && (p.channel == Reliable ==> p.message.StatUpdate?)
  }

  /** Striking one living entity keeps the rest, and the dead set follows. */
  lemma StrikingHarms(c: Combat, after: Combat, target: u16)
    requires target in c.entities && c.entities[target].life > 0 && target in after.entities
    requires var later := after.entities[target];
             && after.entities == c.entities[target := later] && after.playerId == c.playerId
             && Harmed(c.entities[target], later) && Harmed(c.player, after.player)
             && after.dead == (if later.life == 0 then c.dead + {target} else c.dead)
             && (WellFormedEntity(c.entities[target]) ==> WellFormedEntity(later))
             && (WellFormedEntity(c.player) ==> WellFormedEntity(after.player))
    ensures OnlyHarmed(c, after) && (WellFormed(c) ==> WellFormed(after))
  {
  }

  lemma PlayerAttackIsLawful(c: Combat, target: u16, fields: ActionFields, motion: utf16)
    ensures Lawful(c, PlayerAttack(c, target, fields, motion))
  {
    var o := PlayerAttack(c, target, fields, motion);
    if o != Unchanged(c) && target in c.entities && c.entities[target].life > 0 { StrikingHarms(c, o.combat, target); }
  }

  lemma HitPlayerIsLawful(c: Combat, source: u16, fields: ActionFields, motion: utf16)
    requires source in c.chains && source in c.entities && c.entities[source].life > 0 && source != c.playerId
    ensures Lawful(c, HitPlayer(c, source, fields, motion))
  {
  }

  lemma HitObjectiveIsLawful(c: Combat, source: u16, target: u16, fields: ActionFields, motion: utf16)
    requires source in c.chains && source in c.entities && c.entities[source].life > 0 && source != c.playerId
    requires target != c.playerId
    ensures Lawful(c, HitObjective(c, source, target, fields, motion))
  {
  }

  /** Lawful after the source has gained its spirit is lawful from the start. */
  lemma ActingIsLawful(c: Combat, acted: Combat, first: Outgoing, hit: Outcome, o: Outcome)
    requires Lawful(acted, hit) && o.combat == hit.combat && o.packets == [first] + hit.packets &&
             first.message.StatUpdate?
    requires OnlyHarmed(c, acted) && acted.player == c.player && acted.dead == c.dead &&
             (WellFormed(c) ==> WellFormed(acted))
    requires forall id <- c.entities :: acted.entities[id].life == c.entities[id].life
    ensures Lawful(c, o)
  {
    forall id | id in c.entities ensures Harmed(c.entities[id], o.combat.entities[id]) {
      assert Harmed(c.entities[id], acted.entities[id]);
    }
    forall p | p in hit.packets ensures LegalHit(c, p.message) { assert LegalHit(acted, p.message); }
  }

  lemma NpcAttackIsLawful(c: Combat, source: u16, target: u16, fields: ActionFields, motion: utf16)
    requires source != c.playerId
    ensures Lawful(c, NpcAttack(c, source, target, fields, motion))
  {
    if source in c.entities && c.entities[source].life > 0 {
      var acted := NpcActs(c, source, target, fields.tick);
      var hit := if target == c.playerId then HitPlayer(acted, source, fields, motion)
                 else HitObjective(acted, source, target, fields, motion);
      if target == c.playerId { HitPlayerIsLawful(acted, source, fields, motion); }
      else { HitObjectiveIsLawful(acted, source, target, fields, motion); }
      ActingIsLawful(c, acted, Stat(source, acted.entities[source]), hit, NpcAttack(c, source, target, fields, motion));
    }
  }

  lemma ClearIsLawful(c: Combat, id: u16)
    ensures Lawful(c, ClearLife(c, id))
  {
  }

  /** Every packet, early returns included, is handled lawfully. */
  lemma HandleIsLawful(c: Combat, packet: DecodedPacket)
    ensures Lawful(c, Handle(c, packet))
  {
    var payload := packet.payload;
    if packet.opcode == 0x07 && |payload| >= 2 {
      ClearIsLawful(c, WordAt(payload, 0));
    } else if packet.opcode == 0x03 && |payload| >= 24 {
      var source, target, motion := WordAt(payload, 0), WordAt(payload, 2), Utf16Tail(payload, 24);
      if source == c.playerId { PlayerAttackIsLawful(c, target, ExtractFields(payload), motion); }
      else { NpcAttackIsLawful(c, source, target, ExtractFields(payload), motion); }
    }
  }

  // ---------------------------------------------------------------- what the packets tell a client

  /** Whom a hit relation strikes. The player is struck by others; a hit of the player's own is on an entity,
      even on one that shares the player's object id. */
  datatype Victim = ThePlayer | Entity(id: u16)

  function VictimOf(m: Message, playerId: u16): Victim
    requires m.HitRelation?
  {
    if m.target == playerId && m.source != playerId then ThePlayer else Entity(m.target)
  }

  function MessageDamage(m: Message, playerId: u16, v: Victim): nat {
    if m.HitRelation? && VictimOf(m, playerId) == v then m.damage else 0
  }

  function MessageHits(m: Message, playerId: u16, v: Victim): nat {
    if m.HitRelation? && VictimOf(m, playerId) == v then 1 else 0
  }

  /** The last stat update for an object among these packets. */
  function LastStat(packets: seq<Outgoing>, id: u16): Option<Message> {
    if packets == [] then None
    else
      var later := LastStat(packets[1..], id);
      var m := packets[0].message;
      if later == None && m.StatUpdate? && m.id == id then Some(m) else later
  }

  /** The damage the hit relations among these packets name a victim for, and how many there are. */
  function DamageTo(packets: seq<Outgoing>, playerId: u16, v: Victim): nat {
    if packets == [] then 0
    else MessageDamage(packets[0].message, playerId, v) + DamageTo(packets[1..], playerId, v)
  }

  function HitsOn(packets: seq<Outgoing>, playerId: u16, v: Victim): nat {
    if packets == [] then 0
    else MessageHits(packets[0].message, playerId, v) + HitsOn(packets[1..], playerId, v)
  }

  /** A packet in front of others. */
  lemma ReportInFront(first: Outgoing, rest: seq<Outgoing>, playerId: u16, id: u16, v: Victim)
    ensures LastStat([first] + rest, id) ==
            if LastStat(rest, id).Some? then LastStat(rest, id)
            else if first.message.StatUpdate? && first.message.id == id then Some(first.message) else None
    ensures DamageTo([first] + rest, playerId, v) ==
            MessageDamage(first.message, playerId, v) + DamageTo(rest, playerId, v)
    ensures HitsOn([first] + rest, playerId, v) == MessageHits(first.message, playerId, v) + HitsOn(rest, playerId, v)
  {
    assert ([first] + rest)[1..] == rest;
  }

  lemma ReportOfHit(packets: seq<Outgoing>, source: u16, target: u16, hitIndex: u16, damage: u16, playerId: u16,
                    id: u16, v: Victim)
    requires TellsOneHit(packets, source, target, hitIndex, damage)
    ensures LastStat(packets, id) == None
    ensures DamageTo(packets, playerId, v) == MessageDamage(packets[1].message, playerId, v)
    ensures HitsOn(packets, playerId, v) == MessageHits(packets[1].message, playerId, v)
  {
    var last := [packets[3]];
    assert packets == [packets[0]] + ([packets[1]] + ([packets[2]] + (last + [])));
    ReportInFront(packets[3], [], playerId, id, v);
    assert last + [] == last;
    ReportInFront(packets[2], last, playerId, id, v);
    ReportInFront(packets[1], [packets[2]] + last, playerId, id, v);
    ReportInFront(packets[0], [packets[1]] + ([packets[2]] + last), playerId, id, v);
  }

  predicate IsClear(packet: DecodedPacket) { packet.opcode == 0x07 }

  predicate SameStats(e: CombatEntity, later: CombatEntity) {
    later.life == e.life && later.maxLife == e.maxLife && later.spirit == e.spirit
  }

  /** Silence about an id means nothing a client shows for it has changed; otherwise the last stat update is
      the new state behind the id, the player's before an entity's. */
  predicate StatsTold(c: Combat, o: Outcome, id: u16) {
    var later := o.combat;
    match LastStat(o.packets, id)
    case None =>
      && (id == c.playerId ==> SameStats(c.player, later.player))
      && (id in c.entities ==> id in later.entities && SameStats(c.entities[id], later.entities[id]))
    case Some(m) =>
      if id == c.playerId then m == Stat(id, later.player).message
      else id in later.entities && m == Stat(id, later.entities[id]).message
  }

  predicate Present(c: Combat, v: Victim) { v.Entity? ==> v.id in c.entities }

  function Holder(c: Combat, v: Victim): CombatEntity
    requires Present(c, v)
  {
    if v.ThePlayer? then c.player else c.entities[v.id]
  }

  /** The hits named account for the life lost; and a hostile is hit for the full player damage until the hit
      that fells it. */
  predicate HitsTold(c: Combat, o: Outcome, v: Victim, exact: bool)
    requires Present(c, v)
  {
    && Present(o.combat, v)
    && var was, now := Holder(c, v), Holder(o.combat, v);
       var damage, hits := DamageTo(o.packets, c.playerId, v), HitsOn(o.packets, c.playerId, v);
    && was.life - now.life >= damage && (exact ==> was.life - now.life == damage)
    && (v.Entity? && was.category == HOSTILE ==>
          (hits == 0 && damage == 0) || (hits == 1 && was.life > 0 && damage == Min(was.life, PLAYER_DAMAGE)))
  }

  predicate Told(c: Combat, o: Outcome, id: u16, v: Victim, exact: bool) {
    StatsTold(c, o, id) && (Present(c, v) ==> HitsTold(c, o, v, exact))
  }

  lemma PlayerAttackTells(c: Combat, target: u16, fields: ActionFields, motion: utf16, id: u16, v: Victim)
    ensures Told(c, PlayerAttack(c, target, fields, motion), id, v, true)
  {
    var o := PlayerAttack(c, target, fields, motion);
    if o.packets != [] {
      var first, second, hits := o.packets[0], o.packets[1], o.packets[2..];
      assert o.packets == [first] + ([second] + hits);
      ReportOfHit(hits, c.playerId, target, o.combat.chains[c.playerId].index,
                  Min(c.entities[target].life, PLAYER_DAMAGE), c.playerId, id, v);
      ReportInFront(second, hits, c.playerId, id, v);
      ReportInFront(first, [second] + hits, c.playerId, id, v);
    }
  }

  lemma HitPlayerTells(c: Combat, source: u16, fields: ActionFields, motion: utf16, id: u16, v: Victim)
    requires source in c.chains && source != c.playerId
    ensures Told(c, HitPlayer(c, source, fields, motion), id, v, true)
  {
    var o := HitPlayer(c, source, fields, motion);
    if o.packets != [] {
      var hits := o.packets[1..];
      assert o.packets == [o.packets[0]] + hits;
      ReportOfHit(hits, source, c.playerId, c.chains[source].index, Min(c.player.life, NPC_DAMAGE), c.playerId, id, v);
      ReportInFront(o.packets[0], hits, c.playerId, id, v);
    }
  }

  lemma HitObjectiveTells(c: Combat, source: u16, target: u16, fields: ActionFields, motion: utf16, id: u16, v: Victim)
    requires source in c.chains && source != c.playerId && target != c.playerId
    ensures Told(c, HitObjective(c, source, target, fields, motion), id, v, true)
  {
    var o := HitObjective(c, source, target, fields, motion);
    if o.packets != [] {
      var hits := o.packets[1..];
      assert o.packets == [o.packets[0]] + hits;
      ReportOfHit(hits, source, target, c.chains[source].index, Min(c.entities[target].life, NPC_DAMAGE),
                  c.playerId, id, v);
      ReportInFront(o.packets[0], hits, c.playerId, id, v);
    }
  }

  /** What the hit tells after the source has gained its spirit, and said so, is told from the start. */
  lemma ActingIsTold(c: Combat, acted: Combat, source: u16, hit: Outcome, o: Outcome, id: u16, v: Victim)
    requires source in c.entities && source in acted.entities && source != c.playerId
    requires acted == c.(entities := c.entities[source := acted.entities[source]], chains := acted.chains)
    requires Harmed(c.entities[source], acted.entities[source]) &&
             acted.entities[source].life == c.entities[source].life
    requires Told(acted, hit, id, v, true)
    requires o.combat == hit.combat && o.packets == [Stat(source, acted.entities[source])] + hit.packets
    ensures Told(c, o, id, v, true)
  {
    ReportInFront(Stat(source, acted.entities[source]), hit.packets, c.playerId, id, v);
  }

  lemma NpcAttackTells(c: Combat, source: u16, target: u16, fields: ActionFields, motion: utf16, id: u16, v: Victim)
    requires source != c.playerId
    ensures Told(c, NpcAttack(c, source, target, fields, motion), id, v, true)
  {
    if source in c.entities && c.entities[source].life > 0 {
      var acted := NpcActs(c, source, target, fields.tick);
      var hit := if target == c.playerId then HitPlayer(acted, source, fields, motion)
                 else HitObjective(acted, source, target, fields, motion);
      if target == c.playerId { HitPlayerTells(acted, source, fields, motion, id, v); }
      else { HitObjectiveTells(acted, source, target, fields, motion, id, v); }
      ActingIsTold(c, acted, source, hit, NpcAttack(c, source, target, fields, motion), id, v);
    }
  }

  lemma OneStatTells(c: Combat, packet: DecodedPacket, id: u16, v: Victim)
    requires packet.opcode != 0x03 || |packet.payload| < 24
    ensures Told(c, Handle(c, packet), id, v, !IsClear(packet))
  {
    var o := Handle(c, packet);
    if o.packets != [] {
      assert o.packets == [o.packets[0]] + [];
      ReportInFront(o.packets[0], [], c.playerId, id, v);
    }
  }

  /** Every handled packet, early returns included, is reported truthfully for every object; only the
      client's clear request takes life without naming a hit. */
  lemma HandleTells(c: Combat, packet: DecodedPacket, id: u16, v: Victim)
    ensures Told(c, Handle(c, packet), id, v, !IsClear(packet))
  {
    var payload := packet.payload;
    if packet.opcode != 0x03 || |payload| < 24 {
      OneStatTells(c, packet, id, v);
    } else {
      var source, target, motion := WordAt(payload, 0), WordAt(payload, 2), Utf16Tail(payload, 24);
      if source == c.playerId { PlayerAttackTells(c, target, ExtractFields(payload), motion, id, v); }
      else { NpcAttackTells(c, source, target, ExtractFields(payload), motion, id, v); }
    }
  }

  // ---------------------------------------------------------------- hit chains

  /** The ticks of a source's accepted actions, oldest first. */
  function Ticks(accepted: seq<Action>, source: u16): seq<u32> {
    if accepted == [] then []
    else
      var n := |accepted| - 1;
      Ticks(accepted[..n], source) + (if accepted[n].source == source then [accepted[n].tick] else [])
  }

  predicate Follows(tick: u32, next: u32) { tick <= next && next - tick <= COMBO_RESET_TICKS }

  /** Each tick is at least its predecessor and at most 1800 later. */
  predicate IsCombo(ticks: seq<u32>) { forall i :: 0 < i < |ticks| ==> Follows(ticks[i - 1], ticks[i]) }

  function Suffix(ticks: seq<u32>, m: nat): seq<u32>
    requires m <= |ticks|
  {
    ticks[|ticks| - m..]
  }

  /** The length of the longest suffix that is a combo. */
  function ComboLength(ticks: seq<u32>): (n: nat)
    ensures n <= |ticks| && (ticks != [] ==> n >= 1)
  {
    if ticks == [] then 0
    else
      var k := |ticks| - 1;
      if k > 0 && Follows(ticks[k - 1], ticks[k]) then ComboLength(ticks[..k]) + 1 else 1
  }

  lemma {:induction false} ComboLengthIsCombo(ticks: seq<u32>)
    ensures IsCombo(Suffix(ticks, ComboLength(ticks)))
  {
    if ComboLength(ticks) > 1 {
      var k := |ticks| - 1;
      ComboLengthIsCombo(ticks[..k]);
      assert Suffix(ticks, ComboLength(ticks)) == Suffix(ticks[..k], ComboLength(ticks) - 1) + [ticks[k]];
    }
  }

  lemma {:induction false} ComboLengthIsLongest(ticks: seq<u32>, m: nat)
    requires ComboLength(ticks) < m <= |ticks|
    ensures !IsCombo(Suffix(ticks, m))
  {
    var k, suffix := |ticks| - 1, Suffix(ticks, m);
    assert suffix[m - 1] == ticks[k] && suffix[m - 2] == ticks[k - 1];
    if Follows(ticks[k - 1], ticks[k]) {
      ComboLengthIsLongest(ticks[..k], m - 1);
      var shorter := Suffix(ticks[..k], m - 1);
      var i :| 0 < i < |shorter| && !Follows(shorter[i - 1], shorter[i]);
      assert suffix[i - 1] == shorter[i - 1] && suffix[i] == shorter[i];
    }
  }

  ghost predicate ChainTracks(c: Combat, accepted: seq<Action>, source: u16) {
    var ticks := Ticks(accepted, source);
    if ticks == [] then source !in c.chains
    else
      && source in c.chains && c.chains[source].active && c.chains[source].tick == ticks[|ticks| - 1]
      && c.chains[source].index == ComboLength(ticks) % 0x1_0000
  }

  ghost predicate ChainsTrack(c: Combat, accepted: seq<Action>) {
    forall source: u16 :: ChainTracks(c, accepted, source)
  }

  lemma NextHitTracks(c: Combat, accepted: seq<Action>, source: u16, target: u16, tick: u32, other: u16)
    requires ChainsTrack(c, accepted)
    ensures var after := c.(chains := c.chains[source := NextHit(ChainOf(c, source), source, target, tick)]);
            ChainTracks(after, accepted + [Action(source, tick)], other)
  {
    assert (accepted + [Action(source, tick)])[..|accepted|] == accepted;
    var before, after := Ticks(accepted, other), Ticks(accepted + [Action(source, tick)], other);
    assert ChainTracks(c, accepted, other);
    if other == source {
      assert after == before + [tick] && after[..|before|] == before;
      if before != [] { assert after[|after| - 2] == before[|before| - 1]; }
    } else {
      assert after == before;
    }
  }

  /** A hit relation carries, modulo 65536, the length of the longest combo that its source's accepted actions
      end in, and the newest accepted action is its source's. */
  predicate CountedHit(accepted: seq<Action>, m: Message) {
    m.HitRelation? ==>
      && accepted != [] && accepted[|accepted| - 1].source == m.source
      && m.hitIndex == ComboLength(Ticks(accepted, m.source)) % 0x1_0000
  }

  /** An outcome either leaves the chains alone and sends no hit, or steps the chain of one source, which
      is then the source and index of every hit it sends. */
  ghost predicate StepsChain(c: Combat, o: Outcome, target: u16) {
    if o.accepted == [] then o.combat.chains == c.chains && forall p <- o.packets :: !p.message.HitRelation?
    else
      var source, tick := o.accepted[0].source, o.accepted[0].tick;
      && o.accepted == [Action(source, tick)]
      && o.combat.chains == c.chains[source := NextHit(ChainOf(c, source), source, target, tick)]
      && forall p <- o.packets :: p.message.HitRelation? ==>
           p.message.source == source && p.message.hitIndex == o.combat.chains[source].index
  }

  lemma NpcAttackStepsChain(c: Combat, source: u16, target: u16, fields: ActionFields, motion: utf16)
    ensures StepsChain(c, NpcAttack(c, source, target, fields, motion), target)
  {
    if source in c.entities && c.entities[source].life > 0 {
      var acted := NpcActs(c, source, target, fields.tick);
      HitStepsNoChain(acted, source, target, fields, motion);
    }
  }

  lemma HitStepsNoChain(c: Combat, source: u16, target: u16, fields: ActionFields, motion: utf16)
    requires source in c.chains
    ensures var o := if target == c.playerId then HitPlayer(c, source, fields, motion)
                     else HitObjective(c, source, target, fields, motion);
            && o.combat.chains == c.chains
            && forall p <- o.packets :: p.message.HitRelation? ==>
                 p.message.source == source && p.message.hitIndex == c.chains[source].index
  {
  }

  lemma PlayerAttackStepsChain(c: Combat, target: u16, fields: ActionFields, motion: utf16)
    ensures StepsChain(c, PlayerAttack(c, target, fields, motion), target)
  {
  }

  lemma HandleStepsChain(c: Combat, packet: DecodedPacket) returns (target: u16)
    ensures StepsChain(c, Handle(c, packet), target)
  {
    target := 0;
    if packet.opcode == 0x03 && |packet.payload| >= 24 {
      target := WordAt(packet.payload, 2);
      var fields, motion := ExtractFields(packet.payload), Utf16Tail(packet.payload, 24);
      PlayerAttackStepsChain(c, target, fields, motion);
      NpcAttackStepsChain(c, WordAt(packet.payload, 0), target, fields, motion);
    }
  }

  /** Accepted actions, including NPC actions that are blocked or aimed at the dead, are what the chains
      count; and every hit relation sent carries the combo length of its source. */
  lemma HandleTracksChains(c: Combat, packet: DecodedPacket, accepted: seq<Action>)
    requires ChainsTrack(c, accepted)
    ensures var o := Handle(c, packet);
            && ChainsTrack(o.combat, accepted + o.accepted)
            && forall p <- o.packets :: CountedHit(accepted + o.accepted, p.message)
  {
    var target := HandleStepsChain(c, packet);
    StepKeepsTracking(c, Handle(c, packet), target, accepted);
  }

  lemma StepKeepsTracking(c: Combat, o: Outcome, target: u16, accepted: seq<Action>)
    requires ChainsTrack(c, accepted) && StepsChain(c, o, target)
    ensures ChainsTrack(o.combat, accepted + o.accepted)
    ensures forall p <- o.packets :: CountedHit(accepted + o.accepted, p.message)
  {
    if o.accepted == [] {
      assert accepted + o.accepted == accepted;
      forall source: u16 ensures ChainTracks(o.combat, accepted, source) {
        assert ChainTracks(c, accepted, source);
      }
    } else {
      var source, tick := o.accepted[0].source, o.accepted[0].tick;
      var chained := c.(chains := o.combat.chains);
      forall other: u16 ensures ChainTracks(o.combat, accepted + o.accepted, other) {
        NextHitTracks(c, accepted, source, target, tick, other);
        assert ChainTracks(chained, accepted + o.accepted, other);
      }
      assert Ticks(accepted + [Action(source, tick)], source) != [];
      assert ChainTracks(o.combat, accepted + o.accepted, source);
    }
  }
}
