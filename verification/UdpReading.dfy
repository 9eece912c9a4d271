/** A reader of the inner packets the game server sends: opcode and payload determine the message. */
module UdpReading {
  import opened Bytes
  import opened UdpMessages
  import opened UdpProtocol
  import opened UdpCombat
  import opened UdpPeer
  import opened UdpRuns
  import opened UdpSessionRuns
  import opened UdpTurns

  /** What a client makes of an opcode and a payload; None for a packet the server never sends. */
  function ReadMessage(opcode: byte, p: bytes): Option<Message> {
    if opcode == 0x02 && |p| >= 3 then Some(RoomHeader(p[0], WordAt(p, 1), Utf16Tail(p, 3)))
    else if opcode == 0x23 && |p| == 13 && p[4..] == Zeros(9) then Some(ControlRecord(WordAt(p, 0), p[2], p[3]))
    else if opcode == 0x03 then Some(EntitySnapshot(p))
    else if opcode == 0x04 && p == [] then Some(SyncComplete)
    else if opcode == 0x05 && |p| == 4 then Some(StartElapsed(DoubleWordAt(p, 0)))
    else if opcode == 0x06 && |p| == 4 then Some(CurrentPacket(DoubleWordAt(p, 0)))
    else if opcode == 0x07 && |p| == 8 then Some(GameStateTick(DoubleWordAt(p, 0), DoubleWordAt(p, 4)))
    else if opcode == 0x10 && |p| == 11 && p[8..] == [100, 0, 0] then Some(ReadStat(p))
    else if opcode == 0x1e && |p| == 4 then Some(DamageNotice(WordAt(p, 0), WordAt(p, 2)))
    else if opcode == 0x11 && |p| == 13 && p[9..] == [1, 0, 0, 0] then Some(ReadHit(p))
    else if opcode == 0x17 && |p| >= 4 then Some(TargetMotion(WordAt(p, 0), WordAt(p, 2), Utf16Tail(p, 4)))
    else if opcode == 0x08 && |p| >= 20 then
      Some(MotionEvent(WordAt(p, 0), WordAt(p, 2), DoubleWordAt(p, 4), WordAt(p, 8), WordAt(p, 10), DoubleWordAt(p, 12),
                       WordAt(p, 16), WordAt(p, 18), Utf16Tail(p, 20)))
    else None
  }

  function Zeros(n: nat): bytes { seq(n, i => 0) }

  /** A field of a packet between what is before and behind it. */
  lemma WordIn(p: bytes, head: bytes, w: u16, rest: bytes)
    requires p == head + (WordBytes(w) + rest)
    ensures WordAt(p, |head|) == w
  {
    assert p[|head|] == WordBytes(w)[0] && p[|head| + 1] == WordBytes(w)[1];
  }

  lemma DoubleWordIn(p: bytes, head: bytes, d: u32, rest: bytes)
    requires p == head + (DoubleWordBytes(d) + rest)
    ensures DoubleWordAt(p, |head|) == d
  {
    var n, r := |head|, DoubleWordBytes(d);
    assert p[n] == r[0] && p[n + 1] == r[1] && p[n + 2] == r[2] && p[n + 3] == r[3];
  }

  /** The last field before a place, and what comes before the field. */
  lemma LastField(p: bytes, n: nat, head: bytes, field: bytes)
    requires n <= |p| && p[..n] == head + field
    ensures |head| + |field| == n && p[..|head|] == head && p[|head|..n] == field
  {
    assert p[..n][..|head|] == head && p[..n][|head|..] == field;
  }

  lemma WordOf(p: bytes, i: nat, w: u16)
    requires i + 2 <= |p| && p[i..i + 2] == WordBytes(w)
    ensures WordAt(p, i) == w
  {
    assert p[i] == p[i..i + 2][0] && p[i + 1] == p[i..i + 2][1];
  }

  lemma DoubleWordOf(p: bytes, i: nat, d: u32)
    requires i + 4 <= |p| && p[i..i + 4] == DoubleWordBytes(d)
    ensures DoubleWordAt(p, i) == d
  {
    assert p == p[..i] + (DoubleWordBytes(d) + p[i + 4..]);
    DoubleWordIn(p, p[..i], d, p[i + 4..]);
  }

  lemma EightFields(p: bytes, a: bytes, b: bytes, c: bytes, d: bytes, e: bytes, f: bytes, g: bytes, h: bytes)
    requires |a| == 2 && |b| == 2 && |c| == 4 && |d| == 2 && |e| == 2 && |f| == 4 && |g| == 2 && |h| == 2
    requires |p| >= 20 && p[..20] == a + b + c + d + e + f + g + h
    ensures p[0..2] == a && p[2..4] == b && p[4..8] == c && p[8..10] == d
    ensures p[10..12] == e && p[12..16] == f && p[16..18] == g && p[18..20] == h
  {
    LastField(p, 20, a + b + c + d + e + f + g, h);
    LastField(p, 18, a + b + c + d + e + f, g);
    LastField(p, 16, a + b + c + d + e, f);
    LastField(p, 12, a + b + c + d, e);
    LastField(p, 10, a + b + c, d);
    LastField(p, 8, a + b, c);
    LastField(p, 4, a, b);
  }

  lemma MotionEventReadsBack(m: Message) returns (p: bytes)
    requires m.MotionEvent?
    ensures p == Payload(m) && ReadMessage(0x08, p) == Some(m)
  {
    p := Payload(m);
    var head := WordBytes(m.actor) + WordBytes(m.victim) + DoubleWordBytes(m.tick) + WordBytes(m.eventTag) +
    WordBytes(m.field0a) + DoubleWordBytes(m.field0c) + WordBytes(m.field10) + WordBytes(m.field12);
    assert p == head + Utf16Z(m.eventMotion) && p[..20] == head;
    EightFields(p, WordBytes(m.actor), WordBytes(m.victim), DoubleWordBytes(m.tick), WordBytes(m.eventTag),
                WordBytes(m.field0a), DoubleWordBytes(m.field0c), WordBytes(m.field10), WordBytes(m.field12));
    FieldsRead(p, m);
    Utf16TailReadsBack(head, m.eventMotion);
  }

  lemma FieldsRead(p: bytes, m: Message)
    requires m.MotionEvent? && |p| >= 20
    requires p[0..2] == WordBytes(m.actor) && p[2..4] == WordBytes(m.victim) && p[4..8] == DoubleWordBytes(m.tick)
    requires p[8..10] == WordBytes(m.eventTag) && p[10..12] == WordBytes(m.field0a)
    requires p[12..16] == DoubleWordBytes(m.field0c)
    requires p[16..18] == WordBytes(m.field10) && p[18..20] == WordBytes(m.field12)
    ensures WordAt(p, 0) == m.actor && WordAt(p, 2) == m.victim && DoubleWordAt(p, 4) == m.tick
    ensures WordAt(p, 8) == m.eventTag && WordAt(p, 10) == m.field0a && DoubleWordAt(p, 12) == m.field0c
    ensures WordAt(p, 16) == m.field10 && WordAt(p, 18) == m.field12
  {
    WordOf(p, 0, m.actor);
    WordOf(p, 2, m.victim);
    DoubleWordOf(p, 4, m.tick);
    WordOf(p, 8, m.eventTag);
    WordOf(p, 10, m.field0a);
    DoubleWordOf(p, 12, m.field0c);
    WordOf(p, 16, m.field10);
    WordOf(p, 18, m.field12);
  }

  lemma CombatReadsBack(m: Message)
    requires m.StatUpdate? || m.HitRelation? || m.DamageNotice?
    ensures ReadMessage(Opcode(m), Payload(m)) == Some(m)
  {
    CombatPayloadsReadBack(m);
    var p := Payload(m);
    match m {
      case StatUpdate(_, _, _, _) => assert p[8..] == [100, 0, 0];
      case HitRelation(_, _, _, _, _) => assert p[9..] == [1, 0, 0, 0];
      case DamageNotice(source, damage) =>
        WordIn(p, [], source, WordBytes(damage));
        WordIn(p, WordBytes(source), damage, []);
    }
  }

  lemma TextReadsBack(m: Message)
    requires m.RoomHeader? || m.TargetMotion?
    ensures ReadMessage(Opcode(m), Payload(m)) == Some(m)
  {
    var p := Payload(m);
    match m {
      case RoomHeader(announced, rule, scene) =>
        assert p == [announced] + (WordBytes(rule) + Utf16Z(scene));
        WordIn(p, [announced], rule, Utf16Z(scene));
        Utf16TailReadsBack([announced] + WordBytes(rule), scene);
      case TargetMotion(mover, tag, motion) =>
        assert p == [] + (WordBytes(mover) + (WordBytes(tag) + Utf16Z(motion)));
        WordIn(p, [], mover, WordBytes(tag) + Utf16Z(motion));
        WordIn(p, WordBytes(mover), tag, Utf16Z(motion));
        Utf16TailReadsBack(WordBytes(mover) + WordBytes(tag), motion);
    }
  }

  lemma ControlReadsBack(m: Message)
    requires m.ControlRecord?
    ensures ReadMessage(Opcode(m), Payload(m)) == Some(m)
  {
    var p := Payload(m);
    assert p[4..] == Zeros(9);
    WordIn(p, [], m.objectId, p[2..]);
  }

  lemma NumbersReadBack(m: Message)
    requires m.StartElapsed? || m.CurrentPacket? || m.GameStateTick?
    ensures ReadMessage(Opcode(m), Payload(m)) == Some(m)
  {
    var p := Payload(m);
    match m {
      case StartElapsed(ms) => DoubleWordIn(p, [], ms, []);
      case CurrentPacket(reply) => DoubleWordIn(p, [], reply, []);
      case GameStateTick(elapsed, left) =>
        DoubleWordIn(p, [], elapsed, DoubleWordBytes(left));
        DoubleWordIn(p, DoubleWordBytes(elapsed), left, []);
    }
  }

  /** Every message of the server is read back from its opcode and payload. */
  lemma MessageIsRead(m: Message)
    ensures ReadMessage(Opcode(m), Payload(m)) == Some(m)
  {
    if m.RoomHeader? || m.TargetMotion? { TextReadsBack(m); }
    else if m.MotionEvent? { var p := MotionEventReadsBack(m); }
    else if m.StatUpdate? || m.HitRelation? || m.DamageNotice? { CombatReadsBack(m); }
    else if m.ControlRecord? { ControlReadsBack(m); }
    else if !m.EntitySnapshot? && !m.SyncComplete? { NumbersReadBack(m); }
  }

  // ---------------------------------------------------------------- frames of a run

  function KindOf(channel: Channel): nat {
    match channel case Reliable => 2 case Sequenced => 1 case Unsequenced => 0
  }

  /** What a client makes of a frame: its kind, its sequence base, and the message in it if all checks are passed. */
  ghost predicate Understands(wire: bytes, kind: nat, base: u16, m: Message) {
    && TransportOk(wire) && WordAt(wire, 0) as int == base as int + kind && base % 8 == 0
    && var packet := DecodeInner(wire[3..]);
       packet.Some? && packet.value.checksumOk && ReadMessage(packet.value.opcode, packet.value.payload) == Some(m)
  }

  lemma InnerIsRead(m: Message) returns (inner: bytes, packet: DecodedPacket)
    requires Sendable(m)
    ensures inner == InnerBytes(m)
    ensures DecodeInner(inner) == Some(packet) && packet.checksumOk &&
            ReadMessage(packet.opcode, packet.payload) == Some(m)
  {
    inner, packet := InnerBytes(m), DecodedPacket(Opcode(m), Payload(m), true);
    MessageReadsBack(m);
    MessageIsRead(m);
  }

  /** The word in front of a frame. */
  predicate IsFrameWord(channel: Channel, base: u16, word: u16) {
    if channel == Unsequenced then word == 0 else base % 8 == 0 && word as int == base as int + KindOf(channel)
  }

  lemma ChannelFrameIs(channel: Channel, base: u16, inner: bytes, word: u16)
    requires IsFrameWord(channel, base, word)
    ensures ChannelFrame(channel, base, inner) == Sealed(word, inner)
  {
    match channel {
      case Reliable => assert Base(base) + 2 == word;
      case Sequenced => assert Base(base) + 1 == word;
      case Unsequenced =>
    }
  }

  lemma FrameIsUnderstood(f: Sent, word: u16) returns (wire: bytes)
    requires f.Framed? && Sendable(f.message) && IsFrameWord(f.channel, f.base, word)
    ensures wire == FrameBytes(f)
    ensures Understands(wire, KindOf(f.channel), if f.channel == Unsequenced then 0 else f.base, f.message)
  {
    var inner, packet := InnerIsRead(f.message);
    ChannelFrameIs(f.channel, f.base, inner, word);
    wire := SealedBody(word, inner);
  }

  /** Over every run a client understands every frame of a channel: it passes the checks, has the kind of its channel,
      counts up by eights modulo 65536 on a numbered channel, and holds the message that was sent. */
  lemma FramesAreUnderstood(cfg: Config, datagrams: seq<Datagram>, i: nat)
    requires i < |Run(cfg, datagrams).sent| && Run(cfg, datagrams).sent[i].Framed?
    ensures var sent := Run(cfg, datagrams).sent; var channel := sent[i].channel;
            var base := if channel == Unsequenced then 0 else 8 * |Bases(sent[..i], channel)| % 0x1_0000;
            Understands(FrameBytes(sent[i]), KindOf(channel), base, sent[i].message)
  {
    var sent := Run(cfg, datagrams).sent;
    var f, k := sent[i], |Bases(sent[..i], sent[i].channel)|;
    RunSequences(cfg, datagrams);
    assert f in sent;
    BasesPrefix(sent, i);
    var word := WordOfFrame(f.channel, f.base, k);
    var wire := FrameIsUnderstood(f, word);
  }

  lemma WordOfFrame(channel: Channel, base: u16, k: nat) returns (word: u16)
    requires channel == Unsequenced || base == 8 * k % 0x1_0000
    ensures IsFrameWord(channel, base, word)
  {
    word := 0;
    if channel != Unsequenced {
      assert 8 * k == 8 * (0x2000 * (8 * k / 0x1_0000)) + base;
      WordOfKind(base, KindOf(channel));
      word := base + KindOf(channel);
    }
  }
}
