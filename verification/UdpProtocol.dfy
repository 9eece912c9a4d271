/** The UDP wire protocol: transport frames with an additive check byte, carrying inner packets with a
    bit-permuted length, a keyed opcode, an enciphered payload and an alternating checksum. */
module UdpProtocol {
  import opened Bytes
  import opened BitXor

  const XOR_TABLE: seq<byte> :=
    [0x3f, 0x26, 0x42, 0xfd, 0x8a, 0x72, 0x34, 0x74, 0xc8, 0xbf, 0xcd, 0xa4, 0x94]

  function Key(i: nat): byte { XOR_TABLE[i % 13] }

  type octal = x: int | 0 <= x < 8

  function DecodePermutation(i: octal): octal {
    match i case 0 => 3 case 1 => 4 case 2 => 1 case 3 => 5 case 4 => 7 case 5 => 6 case 6 => 0 case _ => 2
  }

  function EncodePermutation(i: octal): octal {
    match i case 0 => 6 case 1 => 2 case 2 => 7 case 3 => 0 case 4 => 1 case 5 => 3 case 6 => 5 case _ => 4
  }

  lemma PermutationsInverse(i: octal)
    ensures DecodePermutation(EncodePermutation(i)) == i && EncodePermutation(DecodePermutation(i)) == i
  {
  }

  // The fields joined by | in these codecs occupy disjoint bits, so they are added.

  function Byte323(high: octal, middle: octal, low: int): byte
    requires 0 <= low < 4
  {
    (high * 8 + middle as int) * 4 + low
  }

  lemma Byte323Fields(high: octal, middle: octal, low: int)
    requires 0 <= low < 4
    ensures var v := Byte323(high, middle, low); v / 0x20 == high && v / 4 % 8 == middle && v % 4 == low
  {
    var v := Byte323(high, middle, low);
    assert v / 4 == high * 8 + middle as int;
  }

  function Byte233(high: octal, middle: int, low: octal): byte
    requires 0 <= middle < 4
  {
    (high * 4 + middle as int) * 8 + low as int
  }

  lemma Byte233Fields(high: octal, middle: int, low: octal)
    requires 0 <= middle < 4
    ensures var v := Byte233(high, middle, low); v / 0x20 == high && v / 8 % 4 == middle && v % 8 == low
  {
    var v := Byte233(high, middle, low);
    assert v / 8 == high * 4 + middle;
  }

  function DecodeHeaderLength(v: byte): byte {
    Byte233(DecodePermutation(v / 4 % 8), v % 4, DecodePermutation(v / 0x20))
  }

  function EncodeHeaderLength(n: byte): byte {
    Byte323(EncodePermutation(n % 8), EncodePermutation(n / 0x20), n / 8 % 4)
  }

  function DecodeOpcode(encoded: byte, payloadLength: byte): (opcode: byte)
    ensures opcode < 0x40
  {
    var v := Xor(Key(payloadLength), encoded);
    Byte233(DecodePermutation(v / 4 % 8) % 2, v % 4, DecodePermutation(v / 0x20))
  }

  lemma HeaderLengthRoundTrip(n: byte)
    ensures DecodeHeaderLength(EncodeHeaderLength(n)) == n
  {
    Byte323Fields(EncodePermutation(n % 8), EncodePermutation(n / 0x20), n / 8 % 4);
    PermutationsInverse(n % 8);
    PermutationsInverse(n / 0x20);
    assert n == Byte233(n / 0x20, n / 8 % 4, n % 8);
  }

  lemma HeaderLengthInjective(v: byte)
    ensures EncodeHeaderLength(DecodeHeaderLength(v)) == v
  {
    Byte233Fields(DecodePermutation(v / 4 % 8), v % 4, DecodePermutation(v / 0x20));
    PermutationsInverse(v / 4 % 8);
    PermutationsInverse(v / 0x20);
    assert v == Byte323(v / 0x20, v / 4 % 8, v % 4);
  }

  /** The least opcode byte from candidate on that decodes to the opcode. */
  function FirstCandidate(opcode: byte, payloadLength: byte, candidate: nat): (r: Option<byte>)
    requires candidate <= 0x100
    ensures r.Some? ==> candidate <= r.value && DecodeOpcode(r.value, payloadLength) == opcode
    ensures r == None ==> forall c: byte :: candidate <= c ==> DecodeOpcode(c, payloadLength) != opcode
    decreases 0x100 - candidate
  {
    if candidate == 0x100 then None
    else if DecodeOpcode(candidate, payloadLength) == opcode then Some(candidate)
    else FirstCandidate(opcode, payloadLength, candidate + 1)
  }

  function EncodedOpcode(opcode: byte, payloadLength: byte): Option<byte> { FirstCandidate(opcode, payloadLength, 0) }

  /** Exactly the six-bit opcodes can be encoded, at every payload length. */
  lemma EncodableOpcodes(opcode: byte, payloadLength: byte)
    ensures EncodedOpcode(opcode, payloadLength).Some? <==> opcode < 0x40
  {
    if opcode < 0x40 {
      var v := OpcodePreimage(opcode);
      XorUndo(v, Key(payloadLength));
      XorSwap(Key(payloadLength), Xor(v, Key(payloadLength)));
      assert DecodeOpcode(Xor(v, Key(payloadLength)), payloadLength) == opcode;
    }
  }

  lemma OpcodePreimage(opcode: byte) returns (v: byte)
    requires opcode < 0x40
    ensures Byte233(DecodePermutation(v / 4 % 8) % 2, v % 4, DecodePermutation(v / 0x20)) == opcode
  {
    var high, middle, low := EncodePermutation(opcode % 8), if opcode / 0x20 == 1 then 0 else 1, opcode / 8 % 4;
    v := Byte323(high, middle, low);
    Byte323Fields(high, middle, low);
    PermutationsInverse(opcode % 8);
  }

  function AddMod(a: byte, b: int): byte { (a as int + b) % 0x100 }

  lemma AddModInjective(a: byte, b: byte, c: int)
    requires AddMod(a, c) == AddMod(b, c)
    ensures a == b
  {
    assert (a as int + c) - (b as int + c) == 0x100 * ((a as int + c) / 0x100 - (b as int + c) / 0x100);
  }

  lemma AddModDetects(a: byte, b: int, c: int)
    requires AddMod(a, b) == AddMod(a, c) && -0x100 < b - c < 0x100
    ensures b == c
  {
    assert (a as int + b) - (a as int + c) == 0x100 * ((a as int + b) / 0x100 - (a as int + c) / 0x100);
  }

  function Signed(v: byte, index: nat): int { if index % 2 == 0 then -(v as int) else v }

  /** The running checksum of a payload: even positions are subtracted, odd ones added. */
  function PayloadCheck(payload: bytes): byte {
    if payload == [] then 0
    else
      var n := |payload| - 1;
      AddMod(PayloadCheck(payload[..n]), Signed(payload[n], n))
  }

  function KeyStart(encodedOpcode: byte): nat { 7 + (encodedOpcode as int) }

  /** Enciphers and deciphers alike. */
  function Cipher(data: bytes, index: nat): (r: bytes)
    ensures |r| == |data|
  {
    seq(|data|, i requires 0 <= i < |data| => Xor(Key(index + i), data[i]))
  }

  lemma CipherUndo(data: bytes, index: nat)
    ensures Cipher(Cipher(data, index), index) == data
  {
    forall i | 0 <= i < |data| ensures Cipher(Cipher(data, index), index)[i] == data[i] {
      var k := Key(index + i);
      XorSwap(k, data[i]);
      XorSwap(k, Xor(data[i], k));
      XorUndo(data[i], k);
    }
  }

  function CheckByte(payload: bytes, encodedOpcode: byte, payloadLength: byte): byte {
    Xor(Xor(PayloadCheck(payload), Xor(Key(payloadLength), encodedOpcode)), payloadLength)
  }

  /** None stands for the exceptions thrown on a long payload and on an opcode with no encoding. */
  function EncodeInner(opcode: byte, payload: bytes): Option<bytes> {
    if |payload| > 0xFF then None
    else
      match EncodedOpcode(opcode, |payload|)
      case None => None
      case Some(e) =>
        Some([EncodeHeaderLength(|payload|), e, CheckByte(payload, e, |payload|)] + Cipher(payload, KeyStart(e)))
  }

  datatype DecodedPacket = DecodedPacket(opcode: byte, payload: bytes, checksumOk: bool)

  function DecodeInner(encoded: bytes): Option<DecodedPacket> {
    if |encoded| < 3 then None
    else
      var n := DecodeHeaderLength(encoded[0]);
      if |encoded| != n as int + 3 then None
      else
        var payload := Cipher(encoded[3..], KeyStart(encoded[1]));
        var base := Xor(Key(n), encoded[1]);
        Some(DecodedPacket(DecodeOpcode(encoded[1], n), payload,
                           Xor(Xor(encoded[2], PayloadCheck(payload)), base) == n))
  }

  function DecodeStream(stream: bytes): seq<DecodedPacket>
    decreases |stream|
  {
    if |stream| < 3 then []
    else
      var n := DecodeHeaderLength(stream[0]) as int + 3;
      if n > |stream| then []
      else
        match DecodeInner(stream[..n])
        case None => []
        case Some(p) => [p] + DecodeStream(stream[n..])
  }

  // ---------------------------------------------------------------- inner packets

  lemma CheckByteDecodes(check: byte, base: byte, length: byte)
    ensures Xor(Xor(Xor(Xor(check, base), length), check), base) == length
  {
    XorSwap(Xor(check, base), length);
    XorRegroup(length, Xor(check, base), check);
    XorSwap(check, base);
    XorUndo(base, check);
    XorUndo(length, base);
  }

  /** Encoding succeeds exactly on six-bit opcodes and payloads of at most 255 bytes, and decoding what
      it made returns the packet with a good checksum. */
  lemma InnerRoundTrip(opcode: byte, payload: bytes)
    ensures EncodeInner(opcode, payload).Some? <==> opcode < 0x40 && |payload| <= 0xFF
    ensures EncodeInner(opcode, payload).Some? ==>
              DecodeInner(EncodeInner(opcode, payload).value) == Some(DecodedPacket(opcode, payload, true))
  {
    if |payload| <= 0xFF {
      EncodableOpcodes(opcode, |payload|);
      if EncodeInner(opcode, payload).Some? {
        var e := EncodeInner(opcode, payload).value;
        HeaderLengthRoundTrip(|payload|);
        CipherUndo(payload, KeyStart(e[1]));
        assert e[3..] == Cipher(payload, KeyStart(e[1]));
        CheckByteDecodes(PayloadCheck(payload), Xor(Key(|payload|), e[1]), |payload|);
      }
    }
  }

  datatype Inner = Inner(opcode: byte, payload: bytes)

  predicate Encodable(p: Inner) { p.opcode < 0x40 && |p.payload| <= 0xFF }

  function EncodedBytes(p: Inner): (e: bytes)
    requires Encodable(p)
    ensures |e| == |p.payload| + 3 && DecodeHeaderLength(e[0]) == |p.payload|
    ensures DecodeInner(e) == Some(Received(p))
  {
    InnerRoundTrip(p.opcode, p.payload);
    HeaderLengthRoundTrip(|p.payload|);
    EncodeInner(p.opcode, p.payload).value
  }

  function Received(p: Inner): DecodedPacket { DecodedPacket(p.opcode, p.payload, true) }

  function ReceivedAll(packets: seq<Inner>): seq<DecodedPacket> {
    if packets == [] then [] else [Received(packets[0])] + ReceivedAll(packets[1..])
  }

  function EncodeStream(packets: seq<Inner>): bytes
    requires forall p <- packets :: Encodable(p)
  {
    if packets == [] then [] else EncodedBytes(packets[0]) + EncodeStream(packets[1..])
  }

  lemma DecodeStreamFirst(e: bytes, rest: bytes)
    requires |e| >= 3 && |e| == DecodeHeaderLength(e[0]) as int + 3 && DecodeInner(e).Some?
    ensures DecodeStream(e + rest) == [DecodeInner(e).value] + DecodeStream(rest)
  {
    assert (e + rest)[0] == e[0] && (e + rest)[..|e|] == e && (e + rest)[|e|..] == rest;
  }

  lemma DecodeStreamCut(e: bytes, cut: nat)
    requires |e| >= 3 && |e| == DecodeHeaderLength(e[0]) as int + 3 && cut < |e|
    ensures DecodeStream(e[..cut]) == []
  {
  }

  /** A concatenation of encoded packets, cut off inside a further one, decodes to exactly the complete
      packets. */
  lemma {:induction false} StreamRoundTrip(packets: seq<Inner>, last: Inner, cut: nat)
    requires Encodable(last) && forall p <- packets :: Encodable(p)
    requires cut < |EncodedBytes(last)|
    ensures DecodeStream(EncodeStream(packets) + EncodedBytes(last)[..cut]) ==
            ReceivedAll(packets)
  {
    var tail := EncodedBytes(last)[..cut];
    if packets == [] {
      DecodeStreamCut(EncodedBytes(last), cut);
      assert EncodeStream(packets) + tail == tail;
    } else {
      var e := EncodedBytes(packets[0]);
      Regroup(e, EncodeStream(packets[1..]), tail);
      DecodeStreamFirst(e, EncodeStream(packets[1..]) + tail);
      StreamRoundTrip(packets[1..], last, cut);
    }
  }

  lemma {:induction false} PayloadCheckDetects(a: bytes, b: bytes, i: nat)
    requires |a| == |b| && i < |a| && a[i] != b[i]
    requires forall j :: 0 <= j < |a| && j != i ==> a[j] == b[j]
    ensures PayloadCheck(a) != PayloadCheck(b)
  {
    var n := |a| - 1;
    if PayloadCheck(a) == PayloadCheck(b) {
      if i == n {
        assert a[..n] == b[..n];
        AddModDetects(PayloadCheck(a[..n]), Signed(a[n], n), Signed(b[n], n));
      } else {
        PayloadCheckDetects(a[..n], b[..n], i);
        AddModInjective(PayloadCheck(a[..n]), PayloadCheck(b[..n]), Signed(a[n], n));
      }
      assert false;
    }
  }

  /** Rejected, or received with a bad checksum. */
  predicate Flagged(r: Option<DecodedPacket>) { r == None || !r.value.checksumOk }

  /** Damage to any one byte of an encoded packet other than its opcode byte is rejected or flagged. */
  lemma InnerDamageDetected(encoded: bytes, i: nat, v: byte)
    requires DecodeInner(encoded).Some? && DecodeInner(encoded).value.checksumOk
    requires i < |encoded| && i != 1 && v != encoded[i]
    ensures Flagged(DecodeInner(encoded[i := v]))
  {
    if i == 0 {
      HeaderLengthInjective(v);
      HeaderLengthInjective(encoded[0]);
    } else {
      var damaged := encoded[i := v];
      var base := Xor(Key(DecodeHeaderLength(encoded[0])), encoded[1]);
      var was, now := DecodeInner(encoded).value.payload, DecodeInner(damaged).value.payload;
      if DecodeInner(damaged).value.checksumOk {
        XorInjective(Xor(encoded[2], PayloadCheck(was)), Xor(damaged[2], PayloadCheck(now)), base);
        if i == 2 {
          assert damaged[3..] == encoded[3..];
          XorInjective(encoded[2], v, PayloadCheck(was));
        } else {
          PayloadDamageDetected(encoded, i, v);
          XorSwap(encoded[2], PayloadCheck(was));
          XorSwap(encoded[2], PayloadCheck(now));
          XorInjective(PayloadCheck(was), PayloadCheck(now), encoded[2]);
        }
        assert false;
      }
    }
  }

  lemma PayloadDamageDetected(encoded: bytes, i: nat, v: byte)
    requires 3 <= i < |encoded| && v != encoded[i]
    ensures var k := KeyStart(encoded[1]);
            PayloadCheck(Cipher(encoded[3..], k)) != PayloadCheck(Cipher(encoded[i := v][3..], k))
  {
    var start := KeyStart(encoded[1]);
    var was, now := Cipher(encoded[3..], start), Cipher(encoded[i := v][3..], start);
    var k := Key(start + (i - 3));
    XorSwap(k, encoded[i]);
    XorSwap(k, v);
    if was[i - 3] == now[i - 3] { XorInjective(encoded[i], v, k); }
    PayloadCheckDetects(was, now, i - 3);
  }

  // ---------------------------------------------------------------- transport frames

  /** The sum of all bytes but the check byte itself. */
  function ByteSum(data: bytes): byte {
    if data == [] then 0
    else
      var n := |data| - 1;
      if n == 2 then ByteSum(data[..n]) else AddMod(ByteSum(data[..n]), data[n])
  }

  function CheckOf(length: nat, sum: byte): byte { (length - sum as int + 0x78) % 0x100 }

  function TransportCheck(data: bytes): byte { CheckOf(|data|, ByteSum(data)) }

  lemma CheckInjective(length: nat, a: byte, b: byte)
    requires CheckOf(length, a) == CheckOf(length, b)
    ensures a == b
  {
    var x, y := length - a as int + 0x78, length - b as int + 0x78;
    assert x - y == 0x100 * (x / 0x100 - y / 0x100);
  }

  predicate TransportOk(data: bytes) { |data| >= 3 && data[2] == TransportCheck(data) }

  function Sealed(word: u16, body: bytes): bytes {
    var frame := WordBytes(word) + [0] + body;
    frame[2 := TransportCheck(frame)]
  }

  function Base(sequence: u16): u16 { sequence - sequence % 8 }

  function ReliableFrame(sequence: u16, inner: bytes): bytes { Sealed(Base(sequence) + 2, inner) }

  function SequencedFrame(sequence: u16, inner: bytes): bytes { Sealed(Base(sequence) + 1, inner) }

  function UnsequencedFrame(inner: bytes): bytes { Sealed(0, inner) }

  function ProbeReply(word: u16): bytes {
    // (word & 0xfffe) | 6
    Sealed(word - word % 8 + 6, [])
  }

  function AckList(sequence: u16, kind: byte): bytes { Sealed(8 + kind % 8, WordBytes(sequence)) }

  lemma {:induction false} ByteSumIgnoresCheck(data: bytes, v: byte)
    requires |data| >= 3
    ensures ByteSum(data[2 := v]) == ByteSum(data)
  {
    var n := |data| - 1;
    if n == 2 {
      assert data[2 := v][..2] == data[..2];
    } else {
      assert data[2 := v][..n] == data[..n][2 := v];
      ByteSumIgnoresCheck(data[..n], v);
    }
  }

  lemma {:induction false} ByteSumDetects(data: bytes, i: nat, v: byte)
    requires i < |data| && i != 2 && v != data[i]
    ensures ByteSum(data[i := v]) != ByteSum(data)
  {
    var n := |data| - 1;
    if ByteSum(data[i := v]) == ByteSum(data) {
      if i == n {
        assert data[i := v][..n] == data[..n];
        AddModDetects(ByteSum(data[..n]), v, data[n]);
      } else {
        assert data[i := v][..n] == data[..n][i := v];
        ByteSumDetects(data[..n], i, v);
        if n != 2 { AddModInjective(ByteSum(data[..n][i := v]), ByteSum(data[..n]), data[n]); }
      }
      assert false;
    }
  }

  /** Every frame the server builds passes the transport check and carries its word and body. */
  lemma SealedOk(word: u16, body: bytes)
    ensures var f := Sealed(word, body);
            TransportOk(f) && |f| == |body| + 3 && Word(f[0], f[1]) == word && f[3..] == body
  {
    var frame := WordBytes(word) + [0] + body;
    ByteSumIgnoresCheck(frame, TransportCheck(frame));
    assert frame[3..] == body;
  }

  /** Any single-byte change to a valid frame of any length fails the check. */
  lemma TransportDamageDetected(frame: bytes, i: nat, v: byte)
    requires TransportOk(frame) && i < |frame| && v != frame[i]
    ensures !TransportOk(frame[i := v])
  {
    if i == 2 {
      ByteSumIgnoresCheck(frame, v);
    } else {
      ByteSumDetects(frame, i, v);
      if TransportOk(frame[i := v]) { CheckInjective(|frame|, ByteSum(frame), ByteSum(frame[i := v])); }
    }
  }

  // ---------------------------------------------------------------- the loops

  method FindEncodedOpcode(opcode: byte, payloadLength: byte) returns (r: Option<byte>)
    ensures r == EncodedOpcode(opcode, payloadLength)
  {
    var candidate := 0;
    while candidate <= 0xFF
      invariant 0 <= candidate <= 0x100
      invariant FirstCandidate(opcode, payloadLength, candidate) == EncodedOpcode(opcode, payloadLength)
    {
      if DecodeOpcode(candidate, payloadLength) == opcode {
        return Some(candidate);
      }
      candidate := candidate + 1;
    }
    return None;
  }

  method EncodeInnerPacket(opcode: byte, payload: bytes) returns (r: Option<bytes>)
    ensures r == EncodeInner(opcode, payload)
  {
    if |payload| > 0xFF {
      return None;
    }
    var code := FindEncodedOpcode(opcode, |payload|);
    if code == None {
      return None;
    }
    var encoded := new byte[|payload| + 3](_ => 0);
    encoded[0] := EncodeHeaderLength(|payload|);
    encoded[1] := code.value;
    var check := EncipherPayload(payload, encoded);
    encoded[2] := Xor(Xor(check, Xor(Key(|payload|), code.value)), |payload|);
    assert encoded[..] == [encoded[0], encoded[1], encoded[2]] + encoded[3..];
    r := Some(encoded[..]);
  }

  /** The check byte grows by one plain byte. */
  lemma CheckNext(payload: bytes, n: nat)
    requires n < |payload|
    ensures PayloadCheck(payload[..n + 1]) == AddMod(PayloadCheck(payload[..n]), Signed(payload[n], n))
  {
    assert payload[..n + 1][..n] == payload[..n];
  }

  /** The payload loop of EncodeInnerPacket: fills the cipher bytes behind the header and sums the plain ones. */
  method EncipherPayload(payload: bytes, encoded: array<byte>) returns (check: byte)
    requires encoded.Length == |payload| + 3
    modifies encoded
    ensures encoded[..3] == old(encoded[..3]) && encoded[3..] == Cipher(payload, KeyStart(old(encoded[1])))
    ensures check == PayloadCheck(payload)
  {
    check := 0;
    var xorIndex := KeyStart(encoded[1]);
    ghost var cipher := Cipher(payload, xorIndex);
    for index := 0 to |payload|
      invariant xorIndex == KeyStart(old(encoded[1])) + index && check == PayloadCheck(payload[..index])
      invariant encoded[..3] == old(encoded[..3])
      invariant encoded[3..index + 3] == cipher[..index]
    {
      var value := payload[index];
      CheckNext(payload, index);
      check := AddMod(check, Signed(value, index));
      assert Xor(Key(xorIndex), value) == cipher[index];
      encoded[index + 3] := Xor(Key(xorIndex), value);
      xorIndex := xorIndex + 1;
    }
    assert payload[..|payload|] == payload && cipher[..|payload|] == cipher;
  }

  method DecodeInnerPacket(encoded: bytes) returns (r: Option<DecodedPacket>)
    ensures r == DecodeInner(encoded)
  {
    if |encoded| < 3 {
      return None;
    }
    var length := DecodeHeaderLength(encoded[0]);
    if |encoded| != length as int + 3 {
      return None;
    }
    var base := Xor(Key(length), encoded[1]);
    var payload, check := DecipherPayload(encoded);
    r := Some(DecodedPacket(DecodeOpcode(encoded[1], length), payload, Xor(Xor(encoded[2], check), base) == length));
  }

  /** The payload loop of DecodeInnerPacket: deciphers what is behind the header and sums it up. */
  method DecipherPayload(encoded: bytes) returns (plain: bytes, check: byte)
    requires |encoded| >= 3
    ensures plain == Cipher(encoded[3..], KeyStart(encoded[1])) && check == PayloadCheck(plain)
  {
    var payload := new byte[|encoded| - 3](_ => 0);
    check := 0;
    var xorIndex := KeyStart(encoded[1]);
    ghost var goal := Cipher(encoded[3..], xorIndex);
    for index := 0 to payload.Length
      invariant xorIndex == KeyStart(encoded[1]) + index
      invariant payload[..index] == goal[..index] && check == PayloadCheck(goal[..index])
    {
      var value := Xor(Key(xorIndex), encoded[index + 3]);
      assert value == goal[index];
      CheckNext(goal, index);
      payload[index] := value;
      check := AddMod(check, Signed(value, index));
      xorIndex := xorIndex + 1;
    }
    plain := payload[..];
    assert plain == goal && goal[..|goal|] == goal;
  }

  lemma StreamStep(stream: bytes, offset: nat, end: nat)
    requires offset < end <= |stream| && end - offset >= 3
    requires end - offset == DecodeHeaderLength(stream[offset]) as int + 3
    ensures DecodeInner(stream[offset..end]).Some?
    ensures DecodeStream(stream[offset..]) == [DecodeInner(stream[offset..end]).value] + DecodeStream(stream[end..])
  {
    assert stream[offset..] == stream[offset..end] + stream[end..];
    DecodeStreamFirst(stream[offset..end], stream[end..]);
  }

  lemma StreamEnds(stream: bytes, offset: nat)
    requires offset <= |stream|
    requires |stream| - offset < 3 || DecodeHeaderLength(stream[offset]) as int + 3 > |stream| - offset
    ensures DecodeStream(stream[offset..]) == []
  {
  }

  method DecodeInnerStream(stream: bytes) returns (packets: seq<DecodedPacket>)
    ensures packets == DecodeStream(stream)
  {
    packets := [];
    var offset := 0;
    ghost var goal := DecodeStream(stream);
    assert stream[0..] == stream;
    while offset < |stream|
      invariant 0 <= offset <= |stream|
      invariant packets + DecodeStream(stream[offset..]) == goal
    {
      if |stream| - offset < 3 {
        break;
      }
      var end := offset + DecodeHeaderLength(stream[offset]) as int + 3;
      if end > |stream| {
        break;
      }
      StreamStep(stream, offset, end);
      Regroup(packets, [DecodeInner(stream[offset..end]).value], DecodeStream(stream[end..]));
      // A piece of the length its header announces always decodes.
      var packet := DecodeInnerPacket(stream[offset..end]);
      packets := packets + [packet.value];
      offset := end;
    }
    StreamEnds(stream, offset);
  }

  method TransportCheckByte(data: bytes) returns (r: byte)
    ensures r == TransportCheck(data)
  {
    var sum: byte := 0;
    for index := 0 to |data|
      invariant sum == ByteSum(data[..index])
    {
      assert data[..index + 1][..index] == data[..index];
      if index == 2 {
        continue;
      }
      sum := AddMod(sum, data[index]);
    }
    assert data[..|data|] == data;
    r := CheckOf(|data|, sum);
  }
}
