/** The codec objects: a 4096-byte ring updated in place, each kept a view of its history. */
module LzssCodec {
  import opened Bytes
  import opened Lzss
  import opened LzssRoundTrip

  /** The flag bits of the current group from the given one on. */
  function Flags(flags: byte, bit: nat): seq<bool>
    requires bit <= 8
  {
    BitsOf(Shift(flags, bit), 8 - bit)
  }

  /** The history after the token of a match. */
  function Replayed(h: bytes, token: nat): bytes {
    if token == 0 then h else Copy(h, token % 0x1000 + 1, token / 0x1000 + MIN_MATCH)
  }

  class LzssDecoder {
    const window: array<byte>
    var windowPos: nat
    var pending: bytes
    var flags: byte
    var bit: nat
    ghost var history: bytes

    ghost predicate Valid()
      reads this, window
    {
      RingOf(window[..], history) && windowPos == |history| && bit <= 8
    }

    ghost function State(): Dec
      reads this
      requires bit <= 8
    {
      Dec(history, Flags(flags, bit), pending)
    }

    constructor ()
      ensures Valid() && fresh(window) && State() == FRESH
    {
      window := new byte[WINDOW_SIZE](_ => 0);
      windowPos, pending, flags, bit := 0, [], 0, 8;
      history := [];
    }

    /** Consumes what can be decoded; the state afterwards is that of decoding the input in one piece. */
    method Feed(data: bytes) returns (output: bytes)
      requires Valid()
      modifies this, window
      ensures Valid() && State() == Lzss.Feed(old(State()), data)
      ensures history == old(history) + output
    {
      ghost var h0, goal := history, Run(State().(pending := pending + data));
      pending := pending + data;
      output := [];
      var input, pos, more := pending, 0, true;
      assert input[pos..] == input;
      while more
        invariant Valid() && 0 <= pos <= |input| && pending == input
        invariant Left(input, pos) == goal && history == h0 + output
        invariant !more ==> goal == Dec(history, Flags(flags, bit), input[pos..])
        decreases more, |input| - pos
      {
        if bit >= 8 {
          if pos >= |input| {
            RunStuck(history, flags, bit, input, pos);
            break;
          }
          RunLoad(history, flags, bit, input, pos);
          flags := input[pos];
          pos := pos + 1;
          bit := 0;
        }
        var decoded;
        ghost var before := output;
        pos, decoded, more := DecodeItem(input, pos);
        output := output + decoded;
        Regroup(h0, before, decoded);
      }
      if pos != 0 {
        pending := pending[pos..];
      }
    }

    /** What decoding the rest of the input from here leads to. */
    ghost function Left(input: bytes, pos: nat): Dec
      reads this
      requires bit <= 8 && pos <= |input|
    {
      Run(Dec(history, Flags(flags, bit), input[pos..]))
    }

    /** One item of the current group; more is false when the input ends before the item does. */
    method DecodeItem(input: bytes, start: nat) returns (pos: nat, decoded: bytes, more: bool)
      requires Valid() && bit < 8 && start <= |input|
      modifies this`windowPos, this`history, this`bit, window
      ensures Valid() && start <= pos <= |input| && (more ==> start < pos)
      ensures Left(input, pos) == old(Left(input, start)) && history == old(history) + decoded
      ensures !more ==> Left(input, pos) == Dec(history, Flags(flags, bit), input[pos..])
    {
      if Shift(flags, bit) % 2 == 1 {
        if start + 2 > |input| {
          RunStuck(history, flags, bit, input, start);
          return start, [], false;
        }
        pos, more := start + 2, true;
        decoded := DecodeMatch(input, start);
      } else {
        if start >= |input| {
          RunStuck(history, flags, bit, input, start);
          return start, [], false;
        }
        RunLiteral(history, flags, bit, input, start);
        pos, decoded, more := start + 1, [input[start]], true;
        bit := bit + 1;
        Write(input[start]);
      }
    }

    method DecodeMatch(input: bytes, start: nat) returns (decoded: bytes)
      requires Valid() && bit < 8 && Shift(flags, bit) % 2 == 1 && start + 2 <= |input|
      modifies this`windowPos, this`history, this`bit, window
      ensures Valid() && history == old(history) + decoded
      ensures Left(input, start + 2) == old(Left(input, start))
    {
      RunMatch(history, flags, bit, input, start);
      bit := bit + 1;
      decoded := DecodeToken(Word(input[start], input[start + 1]));
    }

    /** A match: the token 0 ends the group, any other copies from the window. */
    method DecodeToken(token: nat) returns (decoded: bytes)
      requires Valid() && token <= 0xFFFF
      modifies this`windowPos, this`history, this`bit, window
      ensures Valid() && history == old(history) + decoded
      ensures bit == (if token == 0 then 8 else old(bit))
      ensures history == Replayed(old(history), token)
    {
      if token == 0 {
        bit := 8;
        return [];
      }
      decoded := CopyMatch(token % 0x1000 + 1, token / 0x1000 + MIN_MATCH);
    }

    method Write(value: byte)
      requires Valid()
      modifies this`windowPos, this`history, window
      ensures Valid() && history == old(history) + [value]
    {
      RingWrite(window[..], history, value);
      window[Slot(windowPos)] := value;
      assert window[..] == old(window[..])[Slot(|history|) := value];
      windowPos := windowPos + 1;
      history := history + [value];
    }

    /** Appends the byte at a place of the last window of the history. */
    method CopyByte(src: int) returns (value: byte)
      requires Valid() && |history| - WINDOW_SIZE <= src < |history|
      modifies this`windowPos, this`history, window
      ensures Valid() && value == At(old(history), src) && history == old(history) + [value]
    {
      RingRead(window[..], history, src);
      value := window[Slot(src)];
      Write(value);
    }

    method CopyMatch(distance: nat, length: nat) returns (copied: bytes)
      requires Valid() && 1 <= distance <= WINDOW_SIZE
      modifies this`windowPos, this`history, window
      ensures Valid() && history == Copy(old(history), distance, length) == old(history) + copied
    {
      copied := [];
      var src := windowPos - distance;
      ghost var h0 := history;
      for count := 0 to length
        invariant Valid() && src == |history| - distance && history == h0 + copied
        invariant Copy(history, distance, length - count) == Copy(h0, distance, length)
      {
        ghost var h, before := history, copied;
        var value := CopyByte(src);
        CopyStep(h, distance, length - count);
        Regroup(h0, before, [value]);
        copied := copied + [value];
        src := src + 1;
      }
    }
  }

  lemma CopyStep(h: bytes, distance: int, length: nat)
    requires length > 0
    ensures Copy(h + [At(h, |h| - distance)], distance, length - 1) == Copy(h, distance, length)
  {
  }

  lemma RunLoad(h: bytes, flags: byte, bit: nat, p: bytes, pos: nat)
    requires bit == 8 && pos < |p|
    ensures Run(Dec(h, Flags(flags, bit), p[pos..])) == Run(Dec(h, Flags(p[pos], 0), p[pos + 1..]))
  {
    assert p[pos..][1..] == p[pos + 1..];
  }

  lemma RunLiteral(h: bytes, flags: byte, bit: nat, p: bytes, pos: nat)
    requires bit < 8 && Shift(flags, bit) % 2 == 0 && pos < |p|
    ensures Run(Dec(h, Flags(flags, bit), p[pos..])) == Run(Dec(h + [p[pos]], Flags(flags, bit + 1), p[pos + 1..]))
  {
    assert p[pos..][1..] == p[pos + 1..];
    assert Flags(flags, bit) == [false] + Flags(flags, bit + 1);
  }

  lemma RunMatch(h: bytes, flags: byte, bit: nat, p: bytes, pos: nat)
    requires bit < 8 && Shift(flags, bit) % 2 == 1 && pos + 2 <= |p|
    ensures var token := Word(p[pos], p[pos + 1]);
            Run(Dec(h, Flags(flags, bit), p[pos..])) ==
            Run(Dec(Replayed(h, token), Flags(flags, if token == 0 then 8 else bit + 1), p[pos + 2..]))
  {
    assert p[pos..][2..] == p[pos + 2..];
    assert Flags(flags, bit) == [true] + Flags(flags, bit + 1);
    assert Flags(flags, 8) == [];
    RunToken(h, Flags(flags, bit + 1), p[pos..]);
  }

  lemma RunToken(h: bytes, bits: seq<bool>, p: bytes)
    requires |p| >= 2
    ensures var token := Word(p[0], p[1]);
            Run(Dec(h, [true] + bits, p)) == Run(Dec(Replayed(h, token), if token == 0 then [] else bits, p[2..]))
  {
    StepToken(h, bits, p);
  }

  lemma StepToken(h: bytes, bits: seq<bool>, p: bytes)
    requires |p| >= 2
    ensures var token := Word(p[0], p[1]);
            Step(Dec(h, [true] + bits, p)) == Some(Dec(Replayed(h, token), if token == 0 then [] else bits, p[2..]))
  {
    assert ([true] + bits)[1..] == bits;
  }

  lemma RunStuck(h: bytes, flags: byte, bit: nat, p: bytes, pos: nat)
    requires bit <= 8 && pos <= |p| < pos + 2 && (pos == |p| || (bit < 8 && Shift(flags, bit) % 2 == 1))
    ensures Run(Dec(h, Flags(flags, bit), p[pos..])) == Dec(h, Flags(flags, bit), p[pos..])
  {
    if bit < 8 { assert Flags(flags, bit) == [Shift(flags, bit) % 2 == 1] + Flags(flags, bit + 1); }
  }

  class LzssEncoder {
    const window: array<byte>
    var windowPos: nat
    ghost var history: bytes

    ghost predicate Valid()
      reads this, window
    {
      RingOf(window[..], history) && windowPos == |history|
    }

    constructor ()
      ensures Valid() && fresh(window) && history == []
    {
      window := new byte[WINDOW_SIZE](_ => 0);
      windowPos := 0;
      history := [];
    }

    method Write(value: byte)
      requires Valid()
      modifies this, window
      ensures Valid() && history == old(history) + [value]
    {
      RingWrite(window[..], history, value);
      window[Slot(windowPos)] := value;
      assert window[..] == old(window[..])[Slot(|history|) := value];
      windowPos := windowPos + 1;
      history := history + [value];
    }

    /** How far the data agrees with the window at a distance. */
    method MeasureMatch(data: bytes, pos: nat, d: nat, maxLength: nat) returns (matchLength: nat)
      requires Valid() && pos <= |data| && 1 <= d <= Min(windowPos, WINDOW_SIZE) &&
               maxLength == Min(MAX_MATCH, |data| - pos)
      ensures matchLength == MatchLength(history, data[pos..], d)
    {
      ghost var rest := data[pos..];
      matchLength := 0;
      var src := windowPos - d;
      while matchLength < maxLength
        invariant 0 <= matchLength <= maxLength
        invariant MatchFrom(history, rest, d, matchLength) == MatchLength(history, rest, d)
      {
        RingRead(window[..], history, src + matchLength);
        if window[Slot(src + matchLength)] != data[pos + matchLength] {
          break;
        }
        matchLength := matchLength + 1;
      }
    }

    /** The longest match within the window, nearest first; (0, 0) if none has at least four bytes. */
    method FindBestMatch(data: bytes, pos: nat) returns (distance: nat, length: nat)
      requires Valid() && pos <= |data|
      ensures Found(distance, length) == Best(history, data[pos..])
    {
      ghost var rest := data[pos..];
      length, distance := 0, 0;
      var maxLength := Min(MAX_MATCH, |data| - pos);
      if maxLength < MIN_MATCH {
        return 0, 0;
      }
      var maxDistance := Min(windowPos, WINDOW_SIZE);
      var d := 1;
      while d <= maxDistance
        invariant 1 <= d <= maxDistance + 1
        invariant Found(distance, length) == BestUpTo(history, rest, d - 1)
      {
        var matchLength := MeasureMatch(data, pos, d, maxLength);
        if matchLength >= MIN_MATCH && matchLength > length {
          length, distance := matchLength, d;
          if length == MAX_MATCH {
            BestUpToStops(history, rest, d, maxDistance);
            break;
          }
        }
        d := d + 1;
      }
    }

    method Encode(data: bytes) returns (output: bytes)
      requires Valid()
      modifies this, window
      ensures Valid() && history == old(history) + data
      ensures output == Lzss.Encode(old(history), data)
    {
      output := [];
      var pos := 0;
      ghost var h0, goal := history, Lzss.Encode(history, data);
      assert data[0..] == data;
      while pos < |data|
        invariant Valid() && 0 <= pos <= |data| && history + data[pos..] == h0 + data
        invariant output + Lzss.Encode(history, data[pos..]) == goal
      {
        ghost var before := output;
        var group;
        group, pos := EncodeNext(data, pos);
        Regroup(before, group, Lzss.Encode(history, data[pos..]));
        output := output + group;
      }
      assert data[|data|..] == [] && history + [] == history;
    }

    /** One group, and where the data goes on. */
    method EncodeNext(data: bytes, pos: nat) returns (group: bytes, next: nat)
      requires Valid() && pos < |data|
      modifies this, window
      ensures Valid() && pos < next <= |data| && history + data[next..] == old(history) + data[pos..]
      ensures group + Lzss.Encode(history, data[next..]) == Lzss.Encode(old(history), data[pos..])
    {
      ghost var goal := EncodeStep(history, data, pos);
      if pos + 8 <= |data| {
        next := pos + 8;
        group := EncodeFullGroup(data[pos..next]);
      } else {
        next := |data|;
        group := EncodeGroup(data, pos);
      }
    }

    method EncodeFullGroup(values: bytes) returns (group: bytes)
      requires Valid() && |values| == 8
      modifies this, window
      ensures Valid() && history == old(history) + values && group == [0] + values
    {
      group := [0];
      for index := 0 to 8
        invariant Valid() && history == old(history) + values[..index] && group == [0] + values[..index]
      {
        group := group + [values[index]];
        Write(values[index]);
      }
    }

    /** The group that closes a call: flag bits are collected while the items are written. */
    method EncodeGroup(data: bytes, start: nat) returns (group: bytes)
      requires Valid() && start < |data| < start + 8
      modifies this, window
      ensures Valid() && history == old(history) + data[start..]
      ensures group == Lzss.Encode(old(history), data[start..])
    {
      var flags, body, pos := 0, [], start;
      ghost var h0, all, done := history, TailItems(history, data[start..]), [];
      for bit := 0 to 8
        invariant Valid() && start <= pos <= |data| && history == h0 + data[start..pos]
        invariant |data| - pos < 8 - bit && bit == |done| && (forall x <- done :: ValidItem(x))
        invariant all == done + TailItems(history, data[pos..])
        invariant body == ItemsBytes(done) && flags == FromBits(ItemFlags(done))
      {
        ghost var item;
        if pos >= |data| {
          assert data[pos..] == [];
          AddItem(done, End);
          flags := flags + Pow2(bit);
          body := body + [0, 0];
          done := done + [End];
          break;
        }
        var flag, code;
        ghost var from := pos;
        flag, code, pos, item := EncodeItem(data, pos);
        if flag {
          flags := flags + Pow2(bit);
        }
        body := body + code;
        AddItem(done, item);
        Regroup(done, [item], TailItems(history, data[pos..]));
        done := done + [item];
        JoinSlices(data, start, from, pos);
        Regroup(h0, data[start..from], data[from..pos]);
      }
      assert done == all;
      assert data[start..pos] == data[start..];
      TailItemsValid(h0, data[start..]);
      ItemFlagsBound(done);
      group := [flags as byte] + body;
    }

    /** One match or literal of the closing group: its flag, its code, and where the data goes on. */
    method EncodeItem(data: bytes, start: nat) returns (flag: bool, code: bytes, pos: nat, ghost item: Item)
      requires Valid() && start < |data|
      modifies this, window
      ensures Valid() && start < pos <= |data| && history == old(history) + data[start..pos]
      ensures ValidItem(item) && item != End && code == ItemBytes(item) && flag == !item.Lit?
      ensures TailItems(old(history), data[start..]) == [item] + TailItems(history, data[pos..])
    {
      item := TailItemsFirst(history, data, start);
      var distance, length := FindBestMatch(data, start);
      if length >= MIN_MATCH {
        var token := (length - MIN_MATCH) * 0x1000 + (distance - 1);
        flag, code, pos := true, WordBytes(token), start + length;
        WriteAll(data[start..pos]);
      } else {
        flag, code, pos := false, [data[start]], start + 1;
        Write(data[start]);
      }
    }

    method WriteAll(values: bytes)
      requires Valid()
      modifies this, window
      ensures Valid() && history == old(history) + values
    {
      for index := 0 to |values|
        invariant Valid() && history == old(history) + values[..index]
      {
        Write(values[index]);
      }
      assert values[..|values|] == values;
    }
  }

  lemma EncodeStep(h: bytes, data: bytes, pos: nat) returns (group: bytes)
    requires pos < |data|
    ensures group == if pos + 8 <= |data| then [0] + data[pos..pos + 8] else Lzss.Encode(h, data[pos..])
    ensures var next := Min(pos + 8, |data|);
            && Lzss.Encode(h, data[pos..]) == group + Lzss.Encode(h + data[pos..next], data[next..])
            && h + data[pos..next] + data[next..] == h + data[pos..]
  {
    var next := Min(pos + 8, |data|);
    group := if pos + 8 <= |data| then [0] + data[pos..pos + 8] else Lzss.Encode(h, data[pos..]);
    JoinSlices(data, pos, next, |data|);
    Regroup(h, data[pos..next], data[next..]);
    if pos + 8 <= |data| {
      assert data[pos..][..8] == data[pos..next] && data[pos..][8..] == data[next..];
    } else {
      assert data[|data|..] == [];
    }
  }

  lemma TailItemsFirst(h: bytes, data: bytes, pos: nat) returns (item: Item)
    requires pos < |data|
    ensures var m := Best(h, data[pos..]);
            item == if m.length >= MIN_MATCH then Match(m.distance, m.length) else Lit(data[pos])
    ensures ValidItem(item) && (item.Match? ==> item.length <= |data| - pos)
    ensures var next := pos + if item.Match? then item.length else 1;
            TailItems(h, data[pos..]) == [item] + TailItems(h + data[pos..next], data[next..])
  {
    item := FirstItem(h, data[pos..]);
    var next := pos + if item.Match? then item.length else 1;
    assert data[pos..][..next - pos] == data[pos..next] && data[pos..][next - pos..] == data[next..];
  }

  lemma FirstItem(h: bytes, rest: bytes) returns (item: Item)
    requires rest != []
    ensures var m := Best(h, rest); item == if m.length >= MIN_MATCH then Match(m.distance, m.length) else Lit(rest[0])
    ensures ValidItem(item) && (item.Match? ==> item.length <= |rest|)
    ensures var n := if item.Match? then item.length else 1;
            TailItems(h, rest) == [item] + TailItems(h + rest[..n], rest[n..])
  {
    var m := Best(h, rest);
    BestBounds(h, rest);
    item := if m.length >= MIN_MATCH then Match(m.distance, m.length) else Lit(rest[0]);
    assert rest[..1] == [rest[0]];
  }

  lemma ItemFlagsBound(items: seq<Item>)
    requires |items| <= 8
    ensures FromBits(ItemFlags(items)) < 0x100
  {
    FromBitsBound(ItemFlags(items));
    Pow2Mono(|items|, 8);
  }

  lemma AddItem(items: seq<Item>, i: Item)
    requires ValidItem(i) && forall x <- items :: ValidItem(x)
    ensures ItemsBytes(items + [i]) == ItemsBytes(items) + ItemBytes(i)
    ensures FromBits(ItemFlags(items + [i])) == FromBits(ItemFlags(items)) + (if i.Lit? then 0 else Pow2(|items|))
  {
    ItemsBytesSnoc(items, i);
    FlagsSnoc(items, i);
  }

  lemma FlagsSnoc(items: seq<Item>, i: Item)
    ensures FromBits(ItemFlags(items + [i])) == FromBits(ItemFlags(items)) + (if i.Lit? then 0 else Pow2(|items|))
  {
    var flags, last := ItemFlags(items), !i.Lit?;
    assert ItemFlags(items + [i]) == flags + [last];
    FromBitsSnoc(flags, last);
  }

  lemma {:induction false} ItemsBytesSnoc(items: seq<Item>, i: Item)
    requires ValidItem(i) && forall x <- items :: ValidItem(x)
    ensures ItemsBytes(items + [i]) == ItemsBytes(items) + ItemBytes(i)
  {
    if items == [] {
      assert [i][1..] == [] && ItemsBytes([i]) == ItemBytes(i) + [];
    } else {
      assert (items + [i])[1..] == items[1..] + [i];
      ItemsBytesSnoc(items[1..], i);
    }
  }

  /** Encoder and decoder that saw the same bytes hold the same ring and the same position. */
  lemma CodecsInStep(encoder: LzssEncoder, decoder: LzssDecoder)
    requires encoder.Valid() && decoder.Valid() && encoder.history == decoder.history
    ensures encoder.window[..] == decoder.window[..] && encoder.windowPos == decoder.windowPos
  {
    RingsAgree(encoder.window[..], decoder.window[..], encoder.history);
  }
}
