/** The LZSS stream codec, stated over the unbounded history of bytes that went through it.
    The 4096-byte ring windows of the codec objects are views of this history. */
module Lzss {
  import opened Bytes

  const WINDOW_SIZE := 0x1000
  const MIN_MATCH := 4
  const MAX_MATCH := 0x12

  /** The byte at stream position i; the ring starts out zeroed, so positions before the stream read 0. */
  function At(h: bytes, i: int): byte { if 0 <= i < |h| then h[i] else 0 }

  /** Where the ring keeps the byte of a stream position. */
  function Slot(i: int): nat { i % WINDOW_SIZE }

  /** What the ring slot of i holds once h has been written. Positions the stream has not reached yet
      read the stale byte written one lap earlier. */
  function Peek(h: bytes, i: int): byte { if i < |h| then At(h, i) else At(h, i - WINDOW_SIZE) }

  ghost predicate RingOf(window: bytes, h: bytes) {
    && |window| == WINDOW_SIZE
    && forall i {:trigger window[Slot(i)]} :: |h| - WINDOW_SIZE <= i < |h| ==> window[Slot(i)] == At(h, i)
  }

  lemma RingRead(window: bytes, h: bytes, i: int)
    requires RingOf(window, h) && |h| - WINDOW_SIZE <= i < |h| + WINDOW_SIZE
    ensures window[Slot(i)] == Peek(h, i)
  {
    if i >= |h| {
      assert Slot(i - WINDOW_SIZE) == Slot(i);
      assert window[Slot(i - WINDOW_SIZE)] == At(h, i - WINDOW_SIZE);
    }
  }

  lemma RingWrite(window: bytes, h: bytes, v: byte)
    requires RingOf(window, h)
    ensures RingOf(window[Slot(|h|) := v], h + [v])
  {
    var next := window[Slot(|h|) := v];
    forall i | |h| + 1 - WINDOW_SIZE <= i < |h| + 1
      ensures next[Slot(i)] == At(h + [v], i)
    {
      if i < |h| {
        assert window[Slot(i)] == At(h, i);
        assert Slot(i) != Slot(|h|);
      }
    }
  }

  /** A ring is determined by the history: two rings over the same history are the same bytes. */
  lemma RingsAgree(w1: bytes, w2: bytes, h: bytes)
    requires RingOf(w1, h) && RingOf(w2, h)
    ensures w1 == w2
  {
    forall s | 0 <= s < WINDOW_SIZE ensures w1[s] == w2[s] {
      var i := |h| - 1 - Slot(|h| - 1 - s);
      assert Slot(i) == s;
      assert w1[Slot(i)] == At(h, i) == w2[Slot(i)];
    }
  }

  // ---------------------------------------------------------------- decoder

  /** Decoder state: everything decoded so far, the flag bits of the current group still to be used,
      and the input bytes not consumed yet. */
  datatype Dec = Dec(hist: bytes, bits: seq<bool>, pending: bytes)

  const FRESH := Dec([], [], [])

  /** The history after copying length bytes from distance back, one at a time, so that a copy may
      read bytes it has just written. */
  function Copy(h: bytes, distance: int, length: nat): (r: bytes)
    ensures |r| == |h| + length && h <= r
    decreases length
  {
    if length == 0 then h else Copy(h + [At(h, |h| - distance)], distance, length - 1)
  }

  /** One unit of decoding; None when more input is needed. */
  function Step(d: Dec): Option<Dec> {
    if d.bits == [] then
      if d.pending == [] then None
      else Some(Dec(d.hist, BitsOf(d.pending[0], 8), d.pending[1..]))
    else if d.bits[0] then
      if |d.pending| < 2 then None
      else
        var token := Word(d.pending[0], d.pending[1]);
        var rest := d.pending[2..];
        if token == 0 then Some(Dec(d.hist, [], rest))
        else Some(Dec(Copy(d.hist, token % 0x1000 + 1, token / 0x1000 + MIN_MATCH), d.bits[1..], rest))
    else
      if d.pending == [] then None
      else Some(Dec(d.hist + [d.pending[0]], d.bits[1..], d.pending[1..]))
  }

  function Run(d: Dec): Dec
    decreases |d.pending|
  {
    match Step(d) case None => d case Some(next) => Run(next)
  }

  function Feed(d: Dec, data: bytes): Dec { Run(d.(pending := d.pending + data)) }

  function FeedAll(d: Dec, chunks: seq<bytes>): Dec
    decreases chunks
  {
    if chunks == [] then d else FeedAll(Feed(d, chunks[0]), chunks[1..])
  }

  lemma StepMonotone(d: Dec, more: bytes)
    requires Step(d).Some?
    ensures Step(d.(pending := d.pending + more)) ==
            Some(Step(d).value.(pending := Step(d).value.pending + more))
  {
    var p := d.pending;
    assert (p + more)[1..] == p[1..] + more;
    if |p| >= 2 { assert (p + more)[2..] == p[2..] + more; }
  }

  lemma {:induction false} RunResumes(d: Dec, more: bytes)
    ensures Run(Run(d).(pending := Run(d).pending + more)) == Run(d.(pending := d.pending + more))
    decreases |d.pending|
  {
    if Step(d).Some? {
      StepMonotone(d, more);
      RunResumes(Step(d).value, more);
    }
  }

  /** Cutting the input in two changes nothing: the decoder may stop between any two bytes. */
  lemma FeedSplit(d: Dec, a: bytes, b: bytes)
    ensures Feed(Feed(d, a), b) == Feed(d, a + b)
  {
    RunResumes(d.(pending := d.pending + a), b);
    assert d.pending + a + b == d.pending + (a + b);
  }

  /** Any chunking of the input gives the result of decoding it in one piece. */
  lemma {:induction false} FeedAnyChunking(d: Dec, chunks: seq<bytes>)
    requires Step(d) == None
    ensures FeedAll(d, chunks) == Feed(d, Flatten(chunks))
    decreases chunks
  {
    if chunks == [] {
      assert d.pending + [] == d.pending;
    } else {
      var settled := RunSettles(d.(pending := d.pending + chunks[0]));
      FeedAnyChunking(Feed(d, chunks[0]), chunks[1..]);
      FeedSplit(d, chunks[0], Flatten(chunks[1..]));
    }
  }

  /** A settled decoder holds back at most one byte, and only inside a group. */
  lemma {:induction false} RunSettles(d: Dec) returns (settled: Dec)
    ensures settled == Run(d) && Step(settled) == None && d.hist <= settled.hist
    ensures |settled.pending| <= 1 && (|settled.pending| == 1 ==> settled.bits != [] && settled.bits[0])
    decreases |d.pending|
  {
    settled := d;
    if Step(d).Some? { settled := RunSettles(Step(d).value); }
  }

  lemma {:induction false} RunExtends(d: Dec)
    ensures d.hist <= Run(d).hist
    decreases |d.pending|
  {
    if Step(d).Some? { RunExtends(Step(d).value); }
  }

  // ---------------------------------------------------------------- encoder

  /** How many bytes of rest the encoder sees repeated at the given distance, counting from k. */
  function MatchFrom(h: bytes, rest: bytes, distance: int, k: nat): (n: nat)
    requires k <= MaxLength(rest)
    ensures k <= n <= MaxLength(rest)
    decreases MaxLength(rest) - k
  {
    if k < MaxLength(rest) && Peek(h, |h| - distance + k) == rest[k] then MatchFrom(h, rest, distance, k + 1) else k
  }

  function MaxLength(rest: bytes): nat { Min(MAX_MATCH, |rest|) }

  function MatchLength(h: bytes, rest: bytes, distance: int): nat { MatchFrom(h, rest, distance, 0) }

  datatype Found = Found(distance: nat, length: nat)

  /** The best match over distances 1..n: the search keeps a candidate only if it is strictly longer. */
  function BestUpTo(h: bytes, rest: bytes, n: nat): (m: Found) {
    if n == 0 then Found(0, 0)
    else
      var best := BestUpTo(h, rest, n - 1);
      var length := MatchLength(h, rest, n);
      if length >= MIN_MATCH && length > best.length then Found(n, length) else best
  }

  function MaxDistance(h: bytes): nat { Min(|h|, WINDOW_SIZE) }

  function Best(h: bytes, rest: bytes): Found {
    if MaxLength(rest) < MIN_MATCH then Found(0, 0) else BestUpTo(h, rest, MaxDistance(h))
  }

  datatype Item = Lit(value: byte) | Match(distance: nat, length: nat) | End

  /** The items of the group that closes one encode call; rest is what full 8-byte groups leave over. */
  function TailItems(h: bytes, rest: bytes): (items: seq<Item>)
    ensures |items| <= |rest| + 1
    decreases |rest|
  {
    if rest == [] then [End]
    else
      var m := Best(h, rest);
      if m.length >= MIN_MATCH then
        BestBounds(h, rest);
        [Match(m.distance, m.length)] + TailItems(h + rest[..m.length], rest[m.length..])
      else [Lit(rest[0])] + TailItems(h + [rest[0]], rest[1..])
  }

  function Token(m: Item): nat
    requires m.Match? && m.length >= MIN_MATCH && m.distance >= 1
  {
    (m.length - MIN_MATCH) * 0x1000 + (m.distance - 1)
  }

  predicate ValidItem(i: Item) { i.Match? ==> MIN_MATCH <= i.length <= MAX_MATCH && 1 <= i.distance <= WINDOW_SIZE }

  function ItemBytes(i: Item): bytes
    requires ValidItem(i)
  {
    match i
    case Lit(v) => [v]
    case Match(_, _) => WordBytes(Token(i))
    case End => [0, 0]
  }

  function ItemsBytes(items: seq<Item>): bytes
    requires forall i <- items :: ValidItem(i)
  {
    if items == [] then [] else ItemBytes(items[0]) + ItemsBytes(items[1..])
  }

  function ItemFlags(items: seq<Item>): (bits: seq<bool>)
    ensures |bits| == |items| && forall k :: 0 <= k < |items| ==> bits[k] == !items[k].Lit?
  {
    seq(|items|, k requires 0 <= k < |items| => !items[k].Lit?)
  }

  function GroupBytes(items: seq<Item>): bytes
    requires |items| <= 8 && forall i <- items :: ValidItem(i)
  {
    FromBitsBound(ItemFlags(items));
    assert FromBits(ItemFlags(items)) < 0x100 by { Pow2Mono(|items|, 8); }
    [FromBits(ItemFlags(items)) as byte] + ItemsBytes(items)
  }

  lemma {:induction false} Pow2Mono(a: nat, b: nat)
    requires a <= b
    ensures Pow2(a) <= Pow2(b) && Pow2(8) == 0x100
    decreases b
  {
    if a < b { Pow2Mono(a, b - 1); } else if b > 0 { Pow2Mono(b - 1, b - 1); }
    assert Pow2(4) == 16 && Pow2(8) == 16 * Pow2(4);
  }

  /** The output of one encode call. */
  function Encode(h: bytes, data: bytes): bytes
    decreases |data|
  {
    if |data| >= 8 then [0] + data[..8] + Encode(h + data[..8], data[8..])
    else if data == [] then []
    else
      TailItemsValid(h, data);
      GroupBytes(TailItems(h, data))
  }

  /** The output of a sequence of encode calls on one encoder. */
  function EncodeAll(h: bytes, calls: seq<bytes>): bytes
    decreases calls
  {
    if calls == [] then [] else Encode(h, calls[0]) + EncodeAll(h + calls[0], calls[1..])
  }

  lemma {:induction false} BestUpToSpec(h: bytes, rest: bytes, n: nat)
    ensures var m := BestUpTo(h, rest, n);
            && (m.length == 0 || MIN_MATCH <= m.length)
            && (m.length > 0 ==> 1 <= m.distance <= n && MatchLength(h, rest, m.distance) == m.length)
            && (forall d :: 1 <= d <= n && MatchLength(h, rest, d) >= MIN_MATCH ==> MatchLength(h, rest, d) <= m.length)
            && (forall d :: 1 <= d <= n && d < m.distance ==> MatchLength(h, rest, d) < m.length)
  {
    if n > 0 { BestUpToSpec(h, rest, n - 1); }
  }

  /** The first n bytes of rest are what the encoder sees at a distance. */
  ghost predicate Repeats(h: bytes, rest: bytes, distance: int, n: nat) {
    n <= MAX_MATCH && n <= |rest| && forall k :: 0 <= k < n ==> Peek(h, |h| - distance + k) == rest[k]
  }

  lemma {:induction false} MatchRepeats(h: bytes, rest: bytes, distance: int, k: nat, n: nat)
    requires k <= MaxLength(rest) && Repeats(h, rest, distance, k)
    ensures Repeats(h, rest, distance, n) <==> n <= MatchFrom(h, rest, distance, k)
    decreases MaxLength(rest) - k
  {
    if k < MaxLength(rest) && Peek(h, |h| - distance + k) == rest[k] { MatchRepeats(h, rest, distance, k + 1, n); }
  }

  /** The match found is the longest one there is at any distance up to the history and the window, if any is of four
      bytes or more; of the longest ones it is the nearest. */
  lemma BestIsLongest(h: bytes, rest: bytes, distance: nat, n: nat)
    ensures var m := Best(h, rest);
            && (m.length > 0 ==> m.length >= 4 && 1 <= m.distance <= Min(|h|, 0x1000) &&
                                 Repeats(h, rest, m.distance, m.length))
            && (1 <= distance <= Min(|h|, 0x1000) && n >= 4 && Repeats(h, rest, distance, n) ==>
                  n < m.length || (n == m.length && m.distance <= distance))
  {
    var m := Best(h, rest);
    BestUpToSpec(h, rest, MaxDistance(h));
    MatchRepeats(h, rest, distance, 0, n);
    MatchRepeats(h, rest, m.distance, 0, m.length);
    assert MatchLength(h, rest, distance) == MatchFrom(h, rest, distance, 0);
  }

  /** Once the longest possible match is found the rest of the search changes nothing. */
  lemma {:induction false} BestUpToStops(h: bytes, rest: bytes, k: nat, n: nat)
    requires k <= n && BestUpTo(h, rest, k).length == MAX_MATCH
    ensures BestUpTo(h, rest, n) == BestUpTo(h, rest, k)
    decreases n
  {
    if k < n { BestUpToStops(h, rest, k, n - 1); }
  }

  lemma BestBounds(h: bytes, rest: bytes)
    ensures var m := Best(h, rest); m.length >= MIN_MATCH ==>
              && 1 <= m.distance <= MaxDistance(h) && m.length <= MaxLength(rest)
              && MatchLength(h, rest, m.distance) == m.length
  {
    BestUpToSpec(h, rest, MaxDistance(h));
  }

  lemma {:induction false} TailItemsValid(h: bytes, rest: bytes)
    ensures forall i <- TailItems(h, rest) :: ValidItem(i)
    decreases |rest|
  {
    if rest != [] {
      BestBounds(h, rest);
      var m := Best(h, rest);
      if m.length >= MIN_MATCH { TailItemsValid(h + rest[..m.length], rest[m.length..]); }
      else { TailItemsValid(h + [rest[0]], rest[1..]); }
    }
  }
}
