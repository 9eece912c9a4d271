/** The inner packets the game server sends, with the opcode and payload bytes of each. */
module UdpMessages {
  import opened Bytes

  /** A string as its UTF-16 code units. */
  type utf16 = seq<u16>

  function Units(text: string): utf16 {
    seq(|text|, i requires 0 <= i < |text| => text[i] as int % 0x1_0000)
  }

  function UnitBytes(units: utf16): bytes {
    if units == [] then [] else WordBytes(units[0]) + UnitBytes(units[1..])
  }

  function Utf16Z(units: utf16): bytes { UnitBytes(units) + [0, 0] }

  /** The code units of an even-sized byte sequence. */
  function UnitsOf(data: bytes): utf16 {
    if |data| < 2 then [] else [WordAt(data, 0)] + UnitsOf(data[2..])
  }

  /** The text at the end of a payload without its terminator; empty if it is not whole code units. */
  function Utf16Tail(payload: bytes, offset: nat): utf16 {
    if |payload| <= offset || (|payload| - offset) % 2 != 0 then []
    else
      var tail := payload[offset..];
      if tail[|tail| - 2] == 0 && tail[|tail| - 1] == 0 then UnitsOf(tail[..|tail| - 2]) else UnitsOf(tail)
  }

  datatype Message =
    | RoomHeader(announced: byte, rule: u16, scene: utf16)
    | ControlRecord(objectId: u16, slot: byte, value: byte)
    | EntitySnapshot(snapshot: bytes)
    | SyncComplete
    | StartElapsed(elapsedMs: u32)
    | CurrentPacket(reply: u32)
    | GameStateTick(tickElapsedMs: u32, remainingMs: u32)
    | StatUpdate(id: u16, life: u16, maxLife: u16, spirit: u16)
    | DamageNotice(notifier: u16, notified: u16)
    | HitRelation(source: u16, target: u16, hitIndex: u16, damage: u16, relation: byte)
    | TargetMotion(mover: u16, motionTag: u16, motion: utf16)
    | MotionEvent(actor: u16, victim: u16, tick: u32, eventTag: u16, field0a: u16, field0c: u32,
                  field10: u16, field12: u16, eventMotion: utf16)

  function Opcode(m: Message): byte {
    match m
    case RoomHeader(_, _, _) => 0x02
    case ControlRecord(_, _, _) => 0x23
    case EntitySnapshot(_) => 0x03
    case SyncComplete => 0x04
    case StartElapsed(_) => 0x05
    case CurrentPacket(_) => 0x06
    case GameStateTick(_, _) => 0x07
    case StatUpdate(_, _, _, _) => 0x10
    case DamageNotice(_, _) => 0x1e
    case HitRelation(_, _, _, _, _) => 0x11
    case TargetMotion(_, _, _) => 0x17
    case MotionEvent(_, _, _, _, _, _, _, _, _) => 0x08
  }

  function Payload(m: Message): bytes {
    match m
    case RoomHeader(announced, rule, scene) => [announced] + WordBytes(rule) + Utf16Z(scene)
    case ControlRecord(objectId, slot, value) => WordBytes(objectId) + [slot, value, 0, 0, 0, 0, 0, 0, 0, 0, 0]
    case EntitySnapshot(snapshot) => snapshot
    case SyncComplete => []
    case StartElapsed(elapsed) => DoubleWordBytes(elapsed)
    case CurrentPacket(reply) => DoubleWordBytes(reply)
    case GameStateTick(elapsed, remaining) => DoubleWordBytes(elapsed) + DoubleWordBytes(remaining)
    case StatUpdate(id, life, maxLife, spirit) =>
      WordBytes(id) + WordBytes(life) + WordBytes(maxLife) + WordBytes(spirit) + WordBytes(100) + [0]
    case DamageNotice(source, damage) => WordBytes(source) + WordBytes(damage)
    case HitRelation(source, target, hitIndex, damage, relation) =>
      WordBytes(source) + WordBytes(target) + WordBytes(hitIndex) + WordBytes(damage) + [relation, 1, 0, 0, 0]
    case TargetMotion(target, motionTag, motion) => WordBytes(target) + WordBytes(motionTag) + Utf16Z(motion)
    case MotionEvent(source, target, tick, motionTag, field0a, field0c, field10, field12, motion) =>
      WordBytes(source) + WordBytes(target) + DoubleWordBytes(tick) + WordBytes(motionTag) + WordBytes(field0a) +
      DoubleWordBytes(field0c) + WordBytes(field10) + WordBytes(field12) + Utf16Z(motion)
  }

  function PayloadLength(m: Message): nat {
    match m
    case RoomHeader(_, _, scene) => 5 + 2 * |scene|
    case ControlRecord(_, _, _) => 13
    case EntitySnapshot(snapshot) => |snapshot|
    case SyncComplete => 0
    case StartElapsed(_) => 4
    case CurrentPacket(_) => 4
    case GameStateTick(_, _) => 8
    case StatUpdate(_, _, _, _) => 11
    case DamageNotice(_, _) => 4
    case HitRelation(_, _, _, _, _) => 13
    case TargetMotion(_, _, motion) => 6 + 2 * |motion|
    case MotionEvent(_, _, _, _, _, _, _, _, motion) => 22 + 2 * |motion|
  }

  lemma PayloadLengthIs(m: Message)
    ensures |Payload(m)| == PayloadLength(m)
  {
    match m {
      case RoomHeader(_, _, scene) => UnitBytesReadBack(scene);
      case TargetMotion(_, _, motion) => UnitBytesReadBack(motion);
      case MotionEvent(_, _, _, _, _, _, _, _, motion) => UnitBytesReadBack(motion);
      case _ =>
    }
  }

  /** What a client reads from a 0x10 payload, and from a 0x11 payload. */
  function ReadStat(payload: bytes): Message
    requires |payload| == 11
  {
    StatUpdate(WordAt(payload, 0), WordAt(payload, 2), WordAt(payload, 4), WordAt(payload, 6))
  }

  function ReadHit(payload: bytes): Message
    requires |payload| == 13
  {
    HitRelation(WordAt(payload, 0), WordAt(payload, 2), WordAt(payload, 4), WordAt(payload, 6), payload[8])
  }

  /** The bytes of a stat update and of a hit relation determine the message. */
  lemma CombatPayloadsReadBack(m: Message)
    ensures m.StatUpdate? ==> |Payload(m)| == 11 && ReadStat(Payload(m)) == m
    ensures m.HitRelation? ==> |Payload(m)| == 13 && ReadHit(Payload(m)) == m
  {
  }

  lemma {:induction false} UnitBytesReadBack(units: utf16)
    ensures |UnitBytes(units)| == 2 * |units| && UnitsOf(UnitBytes(units)) == units
  {
    if units != [] {
      UnitBytesReadBack(units[1..]);
      assert UnitBytes(units)[2..] == UnitBytes(units[1..]);
    }
  }

  /** Text appended to a payload comes back as its tail. */
  lemma Utf16TailReadsBack(head: bytes, units: utf16)
    ensures Utf16Tail(head + Utf16Z(units), |head|) == units
  {
    UnitBytesReadBack(units);
    var tail := (head + Utf16Z(units))[|head|..];
    assert tail == Utf16Z(units);
    assert tail[..|tail| - 2] == UnitBytes(units);
  }
}
