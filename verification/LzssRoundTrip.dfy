/** When decoding undoes encoding.

    The encoder compares against ring bytes it has not overwritten yet, while the decoder copies
    bytes it has just written, and a match of length 4 at distance 1 is written as the token that
    closes a group. So the round trip does not hold for every input; this module proves for exactly
    which inputs it does. */
module LzssRoundTrip {
  import opened Bytes
  import opened Lzss

  // ---------------------------------------------------------------- decoding the pieces of a call

  lemma {:induction false} RunLiterals(h: bytes, bits: seq<bool>, literals: bytes, more: bytes)
    requires |bits| == |literals| && forall k :: 0 <= k < |bits| ==> !bits[k]
    ensures Run(Dec(h, bits, literals + more)) == Run(Dec(h + literals, [], more))
    decreases |literals|
  {
    if literals == [] {
      assert literals + more == more && h + literals == h;
    } else {
      var v := literals[0];
      assert (literals + more)[1..] == literals[1..] + more;
      RunLiterals(h + [v], bits[1..], literals[1..], more);
      assert h + [v] + literals[1..] == h + literals;
    }
  }

  /** A full group of eight bytes is written uncompressed, and reads back as those bytes. */
  lemma RunFullGroup(h: bytes, data: bytes, more: bytes)
    requires |data| == 8
    ensures Run(Dec(h, [], [0] + data + more)) == Run(Dec(h + data, [], more))
  {
    assert ([0] + data + more)[1..] == data + more;
    ZeroBits(8);
    RunLiterals(h, BitsOf(0, 8), data, more);
  }

  lemma {:induction false} ZeroBits(n: nat)
    ensures forall k :: 0 <= k < n ==> !BitsOf(0, n)[k]
  {
    if n > 0 { ZeroBits(n - 1); }
  }

  /** The items of the closing group end with End, which occurs nowhere else. */
  lemma {:induction false} TailItemsEnd(h: bytes, rest: bytes)
    ensures TailItems(h, rest) != []
    ensures forall k :: 0 <= k < |TailItems(h, rest)| ==>
              (TailItems(h, rest)[k] == End <==> k == |TailItems(h, rest)| - 1)
    decreases |rest|
  {
    if rest != [] {
      BestBounds(h, rest);
      var m := Best(h, rest);
      if m.length >= MIN_MATCH { TailItemsEnd(h + rest[..m.length], rest[m.length..]); }
      else { TailItemsEnd(h + [rest[0]], rest[1..]); }
    }
  }

  /** The first item of the closing group and what follows it. */
  lemma TailItemsUnfold(h: bytes, rest: bytes)
    requires rest != []
    ensures var m, items := Best(h, rest), TailItems(h, rest);
            && items != []
            && (m.length < MIN_MATCH ==>
                  items[0] == Lit(rest[0]) && items[1..] == TailItems(h + [rest[0]], rest[1..]))
            && (m.length >= MIN_MATCH ==>
                  && 1 <= m.distance && m.length <= |rest|
                  && items[0] == Match(m.distance, m.length)
                  && items[1..] == TailItems(h + rest[..m.length], rest[m.length..]))
  {
    BestBounds(h, rest);
  }

  predicate FlagsMatch(bits: seq<bool>, items: seq<Item>) { |items| <= |bits| && bits[..|items|] == ItemFlags(items) }

  lemma FlagsTail(bits: seq<bool>, items: seq<Item>)
    requires items != [] && FlagsMatch(bits, items)
    ensures bits[0] == !items[0].Lit? && FlagsMatch(bits[1..], items[1..])
  {
    assert bits[0] == bits[..|items|][0] == ItemFlags(items)[0];
    assert ItemFlags(items)[1..] == ItemFlags(items[1..]);
    assert bits[1..][..|items| - 1] == bits[..|items|][1..];
  }

  function ItemStart(h: bytes, bits: seq<bool>, items: seq<Item>): Dec
    requires forall i <- items :: ValidItem(i)
  {
    Dec(h, bits, ItemsBytes(items))
  }

  /** A decoder with history seen about to read the closing group the encoder makes of rest after h. */
  function TailStart(seen: bytes, bits: seq<bool>, h: bytes, rest: bytes): Dec {
    TailItemsValid(h, rest);
    ItemStart(seen, bits, TailItems(h, rest))
  }

  function AfterItem(h: bytes, bits: seq<bool>, items: seq<Item>): Dec
    requires items != [] && bits != [] && forall i <- items :: ValidItem(i)
  {
    match items[0]
    case Lit(v) => ItemStart(h + [v], bits[1..], items[1..])
    case End => ItemStart(h, [], items[1..])
    case Match(d, l) =>
      if d == 1 && l == MIN_MATCH then ItemStart(h, [], items[1..])
      else ItemStart(Copy(h, d, l), bits[1..], items[1..])
  }

  lemma TokenFields(m: Item)
    requires m.Match? && ValidItem(m)
    ensures Token(m) < 0x1_0000 && Token(m) % 0x1000 + 1 == m.distance && Token(m) / 0x1000 + MIN_MATCH == m.length
  {
  }

  lemma RunByte(h: bytes, bits: seq<bool>, v: byte, rest: bytes)
    requires bits != [] && !bits[0]
    ensures Run(Dec(h, bits, [v] + rest)) == Run(Dec(h + [v], bits[1..], rest))
  {
    assert ([v] + rest)[1..] == rest;
  }

  lemma RunToken(h: bytes, bits: seq<bool>, p: bytes, rest: bytes, token: nat)
    requires bits != [] && bits[0] && |p| == 2 && Word(p[0], p[1]) == token
    ensures Run(Dec(h, bits, p + rest)) ==
            if token == 0 then Run(Dec(h, [], rest))
            else Run(Dec(Copy(h, token % 0x1000 + 1, token / 0x1000 + MIN_MATCH), bits[1..], rest))
  {
    assert (p + rest)[2..] == rest;
  }

  lemma RunMatchItem(h: bytes, bits: seq<bool>, m: Item, rest: bytes)
    requires m.Match? && ValidItem(m) && bits != [] && bits[0]
    ensures Run(Dec(h, bits, ItemBytes(m) + rest)) ==
            if m.distance == 1 && m.length == MIN_MATCH then Run(Dec(h, [], rest))
            else Run(Dec(Copy(h, m.distance, m.length), bits[1..], rest))
  {
    TokenFields(m);
    RunToken(h, bits, ItemBytes(m), rest, Token(m));
  }

  /** Decoding one item of the closing group. */
  lemma RunItem(h: bytes, bits: seq<bool>, items: seq<Item>)
    requires items != [] && FlagsMatch(bits, items) && forall i <- items :: ValidItem(i)
    ensures FlagsMatch(bits[1..], items[1..])
    ensures Run(ItemStart(h, bits, items)) == Run(AfterItem(h, bits, items))
  {
    var item, rest := items[0], ItemsBytes(items[1..]);
    FlagsTail(bits, items);
    match item {
      case Lit(v) => RunByte(h, bits, v, rest);
      case End => RunToken(h, bits, ItemBytes(item), rest, 0);
      case Match(_, _) => RunMatchItem(h, bits, item, rest);
    }
  }

  // ---------------------------------------------------------------- copies that reproduce the data

  lemma {:induction false} CopyAt(h: bytes, distance: nat, length: nat, k: nat)
    requires distance >= 1 && k < length
    ensures Copy(h, distance, length)[|h| + k] == At(Copy(h, distance, length), |h| + k - distance)
    decreases length
  {
    var h1 := h + [At(h, |h| - distance)];
    var r := Copy(h1, distance, length - 1);
    assert h1 <= r;
    if k == 0 {
      assert r[|h|] == h1[|h|];
    } else {
      CopyAt(h1, distance, length - 1, k - 1);
    }
  }

  /** The bytes the encoder matched against positions that exist already are the data itself. */
  lemma {:induction false} MatchFromSpec(h: bytes, rest: bytes, distance: int, k: nat)
    requires k <= MaxLength(rest)
    ensures forall j :: k <= j < MatchFrom(h, rest, distance, k) ==> Peek(h, |h| - distance + j) == rest[j]
    decreases MaxLength(rest) - k
  {
    if k < MaxLength(rest) && Peek(h, |h| - distance + k) == rest[k] { MatchFromSpec(h, rest, distance, k + 1); }
  }

  /** The matched bytes repeat with the period of the match distance. */
  predicate Periodic(rest: bytes, distance: nat, length: nat)
    requires length <= |rest|
  {
    forall k :: distance <= k < length ==> rest[k] == rest[k - distance]
  }

  /** The decoder's copy reproduces the matched bytes exactly when they have the period of the distance. */
  lemma CopyReproduces(h: bytes, rest: bytes)
    requires Best(h, rest).length >= MIN_MATCH
    ensures var m := Best(h, rest);
            && m.length <= |rest|
            && (Copy(h, m.distance, m.length) == h + rest[..m.length] <==> Periodic(rest, m.distance, m.length))
  {
    BestBounds(h, rest);
    var m := Best(h, rest);
    var r, want := Copy(h, m.distance, m.length), h + rest[..m.length];
    MatchFromSpec(h, rest, m.distance, 0);
    if r == want {
      forall k | m.distance <= k < m.length ensures rest[k] == rest[k - m.distance] {
        CopyAt(h, m.distance, m.length, k);
      }
    }
    if Periodic(rest, m.distance, m.length) {
      CopyPrefix(h, rest, m, m.length);
      assert r[..|h| + m.length] == r && want[..|h| + m.length] == want;
    }
  }

  lemma {:induction false} CopyPrefix(h: bytes, rest: bytes, m: Found, n: nat)
    requires n <= m.length <= |rest| && 1 <= m.distance <= |h| && Periodic(rest, m.distance, m.length)
    requires forall j :: 0 <= j < m.length ==> Peek(h, |h| - m.distance + j) == rest[j]
    ensures Copy(h, m.distance, m.length)[..|h| + n] == h + rest[..n]
  {
    var r := Copy(h, m.distance, m.length);
    if n == 0 {
      assert r[..|h|] == h;
    } else {
      CopyPrefix(h, rest, m, n - 1);
      CopyAt(h, m.distance, m.length, n - 1);
      var from := |h| + n - 1 - m.distance;
      assert Peek(h, |h| - m.distance + (n - 1)) == rest[n - 1];
      assert r[from] == r[..|h| + n - 1][from];
      assert r[|h| + n - 1] == rest[n - 1];
      assert r[..|h| + n] == r[..|h| + n - 1] + [rest[n - 1]];
    }
  }

  // ---------------------------------------------------------------- when a call decodes

  /** The match is not written as the group terminator, and repeats with the period of its distance. */
  predicate Faithful(rest: bytes, m: Found)
    requires m.length <= |rest|
  {
    !(m.distance == 1 && m.length == MIN_MATCH) && Periodic(rest, m.distance, m.length)
  }

  /** The one way a match written as the group terminator still decodes: the seven bytes left are that
      match and three literals, and read as a new group these literals are a flag byte, then a token
      that copies exactly the seven bytes. */
  predicate Coincidence(h: bytes, rest: bytes, m: Found) {
    && m == Found(1, MIN_MATCH) && |rest| == 7
    && rest[4] % 4 == 3 && rest[6] / 0x10 == 3
    && Copy(h, Word(rest[5], rest[6]) % 0x1000 + 1, 7) == h + rest
  }

  /** The condition on the bytes a call leaves over after its full 8-byte groups. */
  predicate TailDecodable(h: bytes, rest: bytes)
    decreases |rest|
  {
    if rest == [] then true
    else
      var m := Best(h, rest);
      if m.length < MIN_MATCH then TailDecodable(h + [rest[0]], rest[1..])
      else
        BestBounds(h, rest);
        Faithful(rest, m) || Coincidence(h, rest, m)
  }

  predicate Decodable(h: bytes, data: bytes)
    decreases |data|
  {
    if |data| >= 8 then Decodable(h + data[..8], data[8..]) else TailDecodable(h, data)
  }

  lemma {:induction false} ShortTail(h: bytes, rest: bytes, bits: seq<bool>)
    requires |rest| < MIN_MATCH && FlagsMatch(bits, TailItems(h, rest))
    ensures Run(TailStart(h, bits, h, rest)) == Dec(h + rest, [], [])
    decreases |rest|
  {
    TailItemsValid(h, rest);
    RunItem(h, bits, TailItems(h, rest));
    if rest == [] {
      assert h + rest == h;
    } else {
      assert TailItems(h, rest)[1..] == TailItems(h + [rest[0]], rest[1..]);
      ShortTail(h + [rest[0]], rest[1..], bits[1..]);
      assert h + [rest[0]] + rest[1..] == h + rest;
    }
  }

  /** What remains of the group after a match that was written as the terminator. */
  lemma {:induction false} ShortTailBytes(seen: bytes, h: bytes, rest: bytes)
    requires |rest| < MIN_MATCH
    ensures TailStart(seen, [], h, rest) == Dec(seen, [], rest + [0, 0])
    decreases |rest|
  {
    TailItemsValid(h, rest);
    var items := TailItems(h, rest);
    if rest == [] {
      assert items == [End] && items[1..] == [];
      assert [0, 0] + ItemsBytes([]) == rest + [0, 0];
    } else {
      TailItemsUnfold(h, rest);
      ShortTailBytes(seen, h + [rest[0]], rest[1..]);
      assert [rest[0]] + (rest[1..] + [0, 0]) == rest + [0, 0];
    }
  }

  lemma TwoZeros(h: bytes, bits: seq<bool>)
    requires |bits| >= 2
    ensures Run(Dec(h, bits, [0, 0])) ==
            if bits[0] then Dec(h, [], [])
            else if bits[1] then Dec(h + [0], bits[1..], [0])
            else Dec(h + [0, 0], bits[2..], [])
  {
    assert Step(Dec(h, [], [])) == None;
    assert [0, 0][2..] == [];
    if !bits[0] {
      var d := Dec(h + [0], bits[1..], [0]);
      assert [0, 0][1..] == [0];
      assert Step(Dec(h, bits, [0, 0])) == Some(d);
      if !bits[1] {
        assert h + [0] + [0] == h + [0, 0] && bits[1..][1..] == bits[2..] && d.pending[1..] == [];
        assert Step(d) == Some(Dec(h + [0, 0], bits[2..], []));
        var e := Dec(h + [0, 0], bits[2..], []);
        assert Step(e) == None && Run(e) == e;
        assert Run(d) == e;
      }
    }
  }

  lemma OneByte(h: bytes, bits: seq<bool>, v: byte)
    ensures |Run(Dec(h, bits, [v])).hist| <= |h| + 1
  {
    assert [v][1..] == [];
    if bits == [] {
      assert Step(Dec(h, bits, [v])) == Some(Dec(h, BitsOf(v, 8), []));
      assert Step(Dec(h, BitsOf(v, 8), [])) == None;
    } else if !bits[0] {
      var d := Dec(h + [v], bits[1..], []);
      assert Step(Dec(h, bits, [v])) == Some(d);
      assert Step(d) == None;
    }
  }

  lemma LowToken(v: byte)
    ensures Word(v, 0) == v && Word(v, 0) % 0x1000 == v && Word(v, 0) / 0x1000 == 0
  {
  }

  /** Flag bits, then v, then the terminator read out of step: never enough bytes. */
  lemma ThreeBytes(h: bytes, bits: seq<bool>, v: byte)
    requires |bits| >= 3
    ensures |Run(Dec(h, bits, [v, 0, 0])).hist| <= |h| + 5
  {
    if bits[0] {
      assert [v, 0, 0] == [v, 0] + [0];
      LowToken(v);
      RunToken(h, bits, [v, 0], [0], v);
      if v == 0 { OneByte(h, [], 0); } else { OneByte(Copy(h, v + 1, MIN_MATCH), bits[1..], 0); }
    } else {
      assert [v, 0, 0] == [v] + [0, 0];
      RunByte(h, bits, v, [0, 0]);
      TwoZeros(h + [v], bits[1..]);
    }
  }

  lemma FirstTwoBits(v: byte)
    ensures (BitsOf(v, 8)[0] && BitsOf(v, 8)[1]) <==> v % 4 == 3
  {
    assert BitsOf(v, 8) == [v % 2 == 1] + BitsOf(v / 2, 7);
  }

  /** After a match written as the terminator, the rest of the group is read as a new group. */
  lemma MisreadTail(h: bytes, rest: bytes, m: Found)
    requires MIN_MATCH <= |rest| < 8 && m == Found(1, MIN_MATCH)
    ensures var d := Run(Dec(h, [], rest[MIN_MATCH..] + [0, 0]));
            && (d.hist == h + rest ==> Coincidence(h, rest, m))
            && (Coincidence(h, rest, m) ==> d == Dec(h + rest, [], []))
  {
    var p := rest[MIN_MATCH..] + [0, 0];
    var bits := BitsOf(p[0], 8);
    assert |bits| == 8;
    assert Step(Dec(h, [], p)) == Some(Dec(h, bits, p[1..]));
    if |rest| == 4 {
      assert p[1..] == [0];
      OneByte(h, bits, 0);
    } else if |rest| == 5 {
      assert p[1..] == [0, 0];
      TwoZeros(h, bits);
    } else if |rest| == 6 {
      assert p[1..] == [rest[5], 0, 0];
      ThreeBytes(h, bits, rest[5]);
    } else {
      assert p[1..] == [rest[5], rest[6], 0, 0];
      FirstTwoBits(rest[4]);
      MisreadSeven(h, rest, m, bits);
    }
  }

  lemma EmptyGroup(h: bytes)
    ensures |Run(Dec(h, [], [0, 0])).hist| <= |h| + 1
  {
    assert [0, 0][1..] == [0];
    assert Step(Dec(h, [], [0, 0])) == Some(Dec(h, BitsOf(0, 8), [0]));
    OneByte(h, BitsOf(0, 8), 0);
  }

  lemma CopyThenZeros(h: bytes, rest: bytes, bits: seq<bool>, token: nat)
    requires |rest| == 7 && |bits| == 8 && token == Word(rest[5], rest[6]) && token != 0
    ensures var c := Copy(h, token % 0x1000 + 1, token / 0x1000 + MIN_MATCH);
            var d := Run(Dec(c, bits[1..], [0, 0]));
            && (d.hist == h + rest <==> bits[1] && rest[6] / 0x10 == 3 && Copy(h, token % 0x1000 + 1, 7) == h + rest)
            && (bits[1] ==> d == Dec(c, [], []))
  {
    assert token / 0x1000 == rest[6] / 0x10;
    ZerosAfter(Copy(h, token % 0x1000 + 1, token / 0x1000 + MIN_MATCH), h, rest, bits, rest[6] / 0x10);
  }

  /** The terminator read as two literals, or as a terminator: never the last byte left, which is not zero. */
  lemma ZerosAfter(c: bytes, h: bytes, rest: bytes, bits: seq<bool>, length: nat)
    requires |rest| == 7 && |bits| == 8 && |c| == |h| + length + MIN_MATCH && length == rest[6] / 0x10
    ensures var d := Run(Dec(c, bits[1..], [0, 0]));
            && (d.hist == h + rest <==> bits[1] && length == 3 && c == h + rest)
            && (bits[1] ==> d == Dec(c, [], []))
  {
    TwoZeros(c, bits[1..]);
    var r := Run(Dec(c, bits[1..], [0, 0])).hist;
    if !bits[1] { assert r[|r| - 1] == 0 && (h + rest)[|h| + 6] == rest[6]; }
  }

  lemma MisreadLiteral(h: bytes, rest: bytes, bits: seq<bool>)
    requires |rest| == 7 && |bits| == 8 && !bits[0]
    ensures |Run(Dec(h, bits, [rest[5], rest[6], 0, 0])).hist| <= |h| + 6
  {
    assert [rest[5], rest[6], 0, 0] == [rest[5]] + [rest[6], 0, 0];
    RunByte(h, bits, rest[5], [rest[6], 0, 0]);
    ThreeBytes(h + [rest[5]], bits[1..], rest[6]);
  }

  lemma MisreadCopy(h: bytes, rest: bytes, bits: seq<bool>)
    requires |rest| == 7 && |bits| == 8 && bits[0]
    ensures var d := Run(Dec(h, bits, [rest[5], rest[6], 0, 0]));
            && (d.hist == h + rest <==>
                  bits[1] && rest[6] / 0x10 == 3 && Copy(h, Word(rest[5], rest[6]) % 0x1000 + 1, 7) == h + rest)
            && (d.hist == h + rest ==> d == Dec(h + rest, [], []))
  {
    var token := Word(rest[5], rest[6]);
    assert [rest[5], rest[6], 0, 0] == [rest[5], rest[6]] + [0, 0];
    RunToken(h, bits, [rest[5], rest[6]], [0, 0], token);
    if token == 0 { EmptyGroup(h); } else { CopyThenZeros(h, rest, bits, token); }
  }

  lemma MisreadSeven(h: bytes, rest: bytes, m: Found, bits: seq<bool>)
    requires |rest| == 7 && m == Found(1, MIN_MATCH)
    requires |bits| == 8 && ((bits[0] && bits[1]) <==> rest[4] % 4 == 3)
    ensures var d := Run(Dec(h, bits, [rest[5], rest[6], 0, 0]));
            && (d.hist == h + rest ==> Coincidence(h, rest, m))
            && (Coincidence(h, rest, m) ==> d == Dec(h + rest, [], []))
  {
    if !bits[0] { MisreadLiteral(h, rest, bits); } else { MisreadCopy(h, rest, bits); }
  }

  /** After a match that is not written as the terminator, the literals left follow the decoder's copy. */
  lemma AfterCopy(h: bytes, rest: bytes, m: Found, bits: seq<bool>)
    requires MIN_MATCH <= m.length <= |rest| < 8
    requires FlagsMatch(bits, TailItems(h + rest[..m.length], rest[m.length..]))
    ensures var d := Run(TailStart(Copy(h, m.distance, m.length), bits, h + rest[..m.length], rest[m.length..]));
            && (d.hist == h + rest <==> Copy(h, m.distance, m.length) == h + rest[..m.length])
            && (d.hist == h + rest ==> d == Dec(h + rest, [], []))
  {
    var c, after, left := Copy(h, m.distance, m.length), h + rest[..m.length], rest[m.length..];
    SameShortItems(after, c, left);
    ShortTail(c, left, bits);
    assert after + left == h + rest;
    if c + left == h + rest { assert c == (c + left)[..|c|] == (h + rest)[..|c|] == after; }
  }

  lemma MatchRoundTrip(h: bytes, rest: bytes, bits: seq<bool>)
    requires MIN_MATCH <= |rest| < 8 && FlagsMatch(bits, TailItems(h, rest))
    requires Best(h, rest).length >= MIN_MATCH
    ensures var d := Run(TailStart(h, bits, h, rest));
            && (d.hist == h + rest ==> TailDecodable(h, rest))
            && (TailDecodable(h, rest) ==> d == Dec(h + rest, [], []))
  {
    var m := Best(h, rest);
    MatchFirst(h, rest, bits);
    if m == Found(1, MIN_MATCH) {
      ShortTailBytes(h, h + rest[..m.length], rest[m.length..]);
      MisreadTail(h, rest, m);
    } else {
      CopyReproduces(h, rest);
      AfterCopy(h, rest, m, bits[1..]);
    }
  }

  lemma MatchFirst(h: bytes, rest: bytes, bits: seq<bool>)
    requires rest != [] && FlagsMatch(bits, TailItems(h, rest)) && Best(h, rest).length >= MIN_MATCH
    ensures var m := Best(h, rest);
            && m.length <= |rest|
            && var after, left := h + rest[..m.length], rest[m.length..];
               && FlagsMatch(bits[1..], TailItems(after, left))
               && Run(TailStart(h, bits, h, rest)) ==
                  if m == Found(1, MIN_MATCH) then Run(TailStart(h, [], after, left))
                  else Run(TailStart(Copy(h, m.distance, m.length), bits[1..], after, left))
  {
    TailItemsUnfold(h, rest);
    TailItemsValid(h, rest);
    RunItem(h, bits, TailItems(h, rest));
  }

  lemma FirstThenRest(h: bytes, rest: bytes)
    requires rest != []
    ensures h + [rest[0]] + rest[1..] == h + rest
  {
  }

  lemma LiteralRoundTrip(h: bytes, rest: bytes, bits: seq<bool>)
    requires rest != [] && FlagsMatch(bits, TailItems(h, rest)) && Best(h, rest).length < MIN_MATCH
    ensures FlagsMatch(bits[1..], TailItems(h + [rest[0]], rest[1..]))
    ensures Run(TailStart(h, bits, h, rest)) == Run(TailStart(h + [rest[0]], bits[1..], h + [rest[0]], rest[1..]))
  {
    TailItemsUnfold(h, rest);
    TailItemsValid(h, rest);
    RunItem(h, bits, TailItems(h, rest));
  }

  /** The closing group of a call decodes to the bytes it was made from exactly when they are decodable;
      then the decoder is at a group boundary with nothing held back. */
  lemma {:induction false} TailRoundTrip(h: bytes, rest: bytes, bits: seq<bool>)
    requires |rest| < 8 && FlagsMatch(bits, TailItems(h, rest))
    ensures var d := Run(TailStart(h, bits, h, rest));
            && (d.hist == h + rest ==> TailDecodable(h, rest))
            && (TailDecodable(h, rest) ==> d == Dec(h + rest, [], []))
    decreases |rest|
  {
    if |rest| < MIN_MATCH {
      ShortTail(h, rest, bits);
      ShortTailDecodable(h, rest);
    } else if Best(h, rest).length < MIN_MATCH {
      LiteralRoundTrip(h, rest, bits);
      TailRoundTrip(h + [rest[0]], rest[1..], bits[1..]);
      FirstThenRest(h, rest);
    } else {
      MatchRoundTrip(h, rest, bits);
    }
  }

  lemma {:induction false} SameShortItems(h: bytes, seen: bytes, rest: bytes)
    requires |rest| < MIN_MATCH
    ensures TailItems(h, rest) == TailItems(seen, rest)
    decreases |rest|
  {
    if rest != [] { SameShortItems(h + [rest[0]], seen + [rest[0]], rest[1..]); }
  }

  lemma {:induction false} ShortTailDecodable(h: bytes, rest: bytes)
    requires |rest| < MIN_MATCH
    ensures TailDecodable(h, rest)
    decreases |rest|
  {
    if rest != [] { ShortTailDecodable(h + [rest[0]], rest[1..]); }
  }

  /** One encode call, decoded from a group boundary with the same history, gives back its input exactly
      when the input is decodable, and then decoder and encoder are in step again. */
  lemma {:induction false} CallRoundTrip(h: bytes, data: bytes)
    ensures Run(Dec(h, [], Encode(h, data))).hist == h + data <==> Decodable(h, data)
    ensures Decodable(h, data) ==> Run(Dec(h, [], Encode(h, data))) == Dec(h + data, [], [])
    decreases |data|
  {
    if |data| >= 8 {
      FullGroupFirst(h, data);
      JoinHistory(h, data);
      CallRoundTrip(h + data[..8], data[8..]);
    } else {
      ShortCallRoundTrip(h, data);
    }
  }

  lemma ShortCallRoundTrip(h: bytes, data: bytes)
    requires |data| < 8
    ensures Run(Dec(h, [], Encode(h, data))).hist == h + data <==> Decodable(h, data)
    ensures Decodable(h, data) ==> Run(Dec(h, [], Encode(h, data))) == Dec(h + data, [], [])
  {
    if data == [] {
      assert h + data == h;
    } else {
      GroupStart(h, data);
      TailRoundTrip(h, data, GroupBits(h, data));
    }
  }

  lemma JoinHistory(h: bytes, data: bytes)
    requires |data| >= 8
    ensures h + data[..8] + data[8..] == h + data
  {
  }

  lemma FullGroupFirst(h: bytes, data: bytes)
    requires |data| >= 8
    ensures Run(Dec(h, [], Encode(h, data))) == Run(Dec(h + data[..8], [], Encode(h + data[..8], data[8..])))
  {
    RunFullGroup(h, data[..8], Encode(h + data[..8], data[8..]));
  }

  function GroupBits(h: bytes, data: bytes): seq<bool> { BitsOf(FromBits(ItemFlags(TailItems(h, data))), 8) }

  lemma GroupStart(h: bytes, data: bytes)
    requires 0 < |data| < 8
    ensures FlagsMatch(GroupBits(h, data), TailItems(h, data))
    ensures Run(Dec(h, [], Encode(h, data))) == Run(TailStart(h, GroupBits(h, data), h, data))
  {
    TailItemsValid(h, data);
    var items := TailItems(h, data);
    BitsOfFromBits(ItemFlags(items), 8);
    assert GroupBytes(items)[1..] == ItemsBytes(items);
  }

  // ---------------------------------------------------------------- whole streams

  predicate AllDecodable(h: bytes, calls: seq<bytes>)
    decreases calls
  {
    calls == [] || (Decodable(h, calls[0]) && AllDecodable(h + calls[0], calls[1..]))
  }

  /** Every prefix of the calls decodes to the bytes given to those calls. */
  ghost predicate EveryPrefixDecodes(h: bytes, calls: seq<bytes>) {
    forall n :: 0 <= n <= |calls| ==> PrefixDecodes(h, calls[..n])
  }

  lemma {:induction false} StreamRoundTrip(h: bytes, calls: seq<bytes>)
    requires AllDecodable(h, calls)
    ensures Run(Dec(h, [], EncodeAll(h, calls))) == Dec(h + Flatten(calls), [], [])
    decreases calls
  {
    if calls == [] {
      assert h + [] == h;
    } else {
      FirstCall(h, calls);
      StreamRoundTrip(h + calls[0], calls[1..]);
      Regroup(h, calls[0], Flatten(calls[1..]));
    }
  }

  lemma FirstCall(h: bytes, calls: seq<bytes>)
    requires calls != [] && Decodable(h, calls[0])
    ensures Run(Dec(h, [], EncodeAll(h, calls))) == Run(Dec(h + calls[0], [], EncodeAll(h + calls[0], calls[1..])))
  {
    CallRoundTrip(h, calls[0]);
    RunResumes(Dec(h, [], Encode(h, calls[0])), EncodeAll(h + calls[0], calls[1..]));
    assert [] + EncodeAll(h + calls[0], calls[1..]) == EncodeAll(h + calls[0], calls[1..]);
  }

  /** The receiver sees exactly what was sent after every call, if and only if every call is decodable. */
  lemma {:induction false} StreamDecodesExactlyWhen(h: bytes, calls: seq<bytes>)
    ensures EveryPrefixDecodes(h, calls) <==> AllDecodable(h, calls)
    decreases calls
  {
    if calls == [] {
      assert h + [] == h;
    } else {
      CallRoundTrip(h, calls[0]);
      if Decodable(h, calls[0]) {
        PrefixesShift(h, calls);
        StreamDecodesExactlyWhen(h + calls[0], calls[1..]);
      } else {
        var call, one := calls[0], calls[..1];
        assert one == [call] && one[1..] == [] && Flatten(one) == call + [];
        assert EncodeAll(h, one) == Encode(h, call) + [] == Encode(h, call);
        assert !PrefixDecodes(h, one);
      }
    }
  }

  ghost predicate PrefixDecodes(h: bytes, calls: seq<bytes>) {
    Run(Dec(h, [], EncodeAll(h, calls))).hist == h + Flatten(calls)
  }

  lemma PrefixesShift(h: bytes, calls: seq<bytes>)
    requires calls != [] && Decodable(h, calls[0])
    ensures EveryPrefixDecodes(h, calls) <==> EveryPrefixDecodes(h + calls[0], calls[1..])
  {
    var h1, later := h + calls[0], calls[1..];
    forall n | 0 <= n <= |later| ensures PrefixDecodes(h, calls[..n + 1]) <==> PrefixDecodes(h1, later[..n]) {
      assert calls[..n + 1][1..] == later[..n] && calls[..n + 1][0] == calls[0];
      FirstCall(h, calls[..n + 1]);
      Regroup(h, calls[0], Flatten(later[..n]));
    }
    assert PrefixDecodes(h, calls[..0]) by { assert h + [] == h; }
    if EveryPrefixDecodes(h1, later) {
      forall n | 0 <= n <= |calls| ensures PrefixDecodes(h, calls[..n]) {
        if n > 0 { assert PrefixDecodes(h, calls[..n - 1 + 1]) <==> PrefixDecodes(h1, later[..n - 1]); }
      }
    }
    if EveryPrefixDecodes(h, calls) {
      forall n | 0 <= n <= |later| ensures PrefixDecodes(h1, later[..n]) {
        assert PrefixDecodes(h, calls[..n + 1]);
      }
    }
  }

  /** The main result: calls that are each decodable arrive intact, however the stream is cut, and the
      decoder ends at a group boundary holding nothing back. */
  lemma StreamInAnyChunking(calls: seq<bytes>, chunks: seq<bytes>)
    requires AllDecodable([], calls) && Flatten(chunks) == EncodeAll([], calls)
    ensures FeedAll(FRESH, chunks) == Dec(Flatten(calls), [], [])
  {
    FeedAnyChunking(FRESH, chunks);
    assert [] + Flatten(chunks) == Flatten(chunks);
    StreamRoundTrip([], calls);
    assert [] + Flatten(calls) == Flatten(calls);
  }

  // ---------------------------------------------------------------- conditions a sender can check

  /** Every match the encoder chooses for these left-over bytes is at least as far back as it is long. */
  predicate FarMatches(h: bytes, rest: bytes)
    decreases |rest|
  {
    if rest == [] then true
    else
      var m := Best(h, rest);
      if m.length < MIN_MATCH then FarMatches(h + [rest[0]], rest[1..])
      else
        BestBounds(h, rest);
        m.distance >= m.length && FarMatches(h + rest[..m.length], rest[m.length..])
  }

  predicate FarCall(h: bytes, data: bytes)
    decreases |data|
  {
    if |data| >= 8 then FarCall(h + data[..8], data[8..]) else FarMatches(h, data)
  }

  lemma {:induction false} FarMatchesDecode(h: bytes, rest: bytes)
    requires FarMatches(h, rest)
    ensures TailDecodable(h, rest)
    decreases |rest|
  {
    if rest != [] && Best(h, rest).length < MIN_MATCH { FarMatchesDecode(h + [rest[0]], rest[1..]); }
  }

  lemma {:induction false} FarCallDecodes(h: bytes, data: bytes)
    requires FarCall(h, data)
    ensures Decodable(h, data)
    decreases |data|
  {
    if |data| >= 8 { FarCallDecodes(h + data[..8], data[8..]); } else { FarMatchesDecode(h, data); }
  }

  /** No match is ever searched for in fewer than four left-over bytes. */
  lemma {:induction false} ShortLeftoverDecodes(h: bytes, data: bytes)
    requires |data| % 8 < MIN_MATCH
    ensures Decodable(h, data)
    decreases |data|
  {
    if |data| >= 8 { ShortLeftoverDecodes(h + data[..8], data[8..]); } else { ShortTailDecodable(h, data); }
  }

  // ---------------------------------------------------------------- the condition is not vacuous

  lemma {:induction false} MatchStops(h: bytes, rest: bytes, distance: int, k: nat, n: nat)
    requires k <= n <= MaxLength(rest)
    requires forall j :: k <= j < n ==> Peek(h, |h| - distance + j) == rest[j]
    requires n < MaxLength(rest) ==> Peek(h, |h| - distance + n) != rest[n]
    ensures MatchFrom(h, rest, distance, k) == n
    decreases n - k
  {
    if k < n { MatchStops(h, rest, distance, k + 1, n); }
  }

  /** A fresh codec pair does not carry this call: its four last bytes become the group terminator. */
  lemma RoundTripFails()
    ensures !Decodable([], [7, 7, 0, 0, 0])
    ensures Run(Dec([], [], Encode([], [7, 7, 0, 0, 0]))).hist != [7, 7, 0, 0, 0]
  {
    var data: bytes := [7, 7, 0, 0, 0];
    assert [] + [data[0]] == [7] && data[1..] == [7, 0, 0, 0];
    NearMatch([7], [7, 0, 0, 0]);
    assert Best([], data) == Found(0, 0);
    CallRoundTrip([], data);
    assert [] + data == data;
  }

  lemma NearMatch(h: bytes, rest: bytes)
    requires h == [7] && rest == [7, 0, 0, 0]
    ensures Best(h, rest) == Found(1, 4) && !TailDecodable(h, rest)
  {
    MatchStops(h, rest, 1, 0, 4);
    assert BestUpTo(h, rest, 0) == Found(0, 0);
    assert BestUpTo(h, rest, 1) == Found(1, 4);
  }

  lemma LastZeroMatches(h: bytes, rest: bytes)
    requires h == [0, 0, 0, 3, 7, 0x30, 0] && rest == [0, 0, 0, 0, 3, 7, 0x30]
    ensures Best(h, rest) == Found(1, MIN_MATCH)
  {
    MatchStops(h, rest, 1, 0, 4);
    MatchStops(h, rest, 2, 0, 0);
    MatchStops(h, rest, 3, 0, 0);
    MatchStops(h, rest, 4, 0, 0);
    MatchStops(h, rest, 5, 0, 1);
    MatchStops(h, rest, 6, 0, 2);
    MatchStops(h, rest, 7, 0, 3);
    assert MatchLength(h, rest, 1) == MIN_MATCH;
    assert forall d :: 2 <= d <= 7 ==> MatchLength(h, rest, d) < MIN_MATCH;
    BestUpToSpec(h, rest, 7);
  }

  lemma LastSevenCopy(h: bytes, rest: bytes)
    requires h == [0, 0, 0, 3, 7, 0x30, 0] && rest == [0, 0, 0, 0, 3, 7, 0x30]
    ensures Coincidence(h, rest, Found(1, MIN_MATCH))
  {
    assert Word(rest[5], rest[6]) % 0x1000 + 1 == 8;
    var r := Copy(h, 8, 7);
    assert r[..7] == h;
    forall k | 0 <= k < 7 ensures r[7 + k] == rest[k] {
      CopyAt(h, 8, 7, k);
      if k > 0 { assert At(r, k - 1) == r[..7][k - 1] == rest[k]; }
    }
    assert r == h + rest;
  }

  /** A call that decodes only because its misread bytes happen to copy the right ones: the encoder does choose
      the match that is written as the terminator. */
  lemma CoincidenceHappens(h: bytes, rest: bytes)
    requires h == [0, 0, 0, 3, 7, 0x30, 0] && rest == [0, 0, 0, 0, 3, 7, 0x30]
    ensures Best(h, rest) == Found(1, MIN_MATCH) && !Faithful(rest, Best(h, rest))
    ensures Coincidence(h, rest, Best(h, rest)) && TailDecodable(h, rest)
  {
    LastZeroMatches(h, rest);
    LastSevenCopy(h, rest);
  }
}
