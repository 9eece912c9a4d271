// Bytes, machine words and the little-endian packing shared by every wire format of the server.
module Bytes {
  type byte = x: int | 0 <= x < 0x100
  type bytes = seq<byte>
  type u16 = x: int | 0 <= x < 0x1_0000
  type u32 = x: int | 0 <= x < 0x1_0000_0000

  datatype Option<+T> = None | Some(value: T)

  function Min(a: int, b: int): int { if a <= b then a else b }

  function Max(a: int, b: int): int { if a >= b then a else b }

  /** A 16-bit word from its low and its high byte. */
  function Word(lo: byte, hi: byte): u16 { (lo as int) + 0x100 * (hi as int) }

  function WordBytes(w: u16): (r: bytes)
    ensures |r| == 2 && Word(r[0], r[1]) == w
  {
    [w % 0x100, w / 0x100]
  }

  function WordAt(data: bytes, i: nat): u16
    requires i + 2 <= |data|
  {
    Word(data[i], data[i + 1])
  }

  /** The number that bytes stand for, the lowest first. */
  function Number(b: bytes): nat { if b == [] then 0 else b[0] as int + 0x100 * Number(b[1..]) }

  lemma NumberOfFour(lo: byte, b: byte, c: byte, hi: byte)
    ensures Number([lo, b, c, hi]) == Word(lo, b) as int + 0x1_0000 * Word(c, hi) as int
  {
    assert [lo, b, c, hi][1..] == [b, c, hi] && [b, c, hi][1..] == [c, hi] && [c, hi][1..] == [hi] && [hi][1..] == [];
    assert Number([hi]) == hi as int && Number([c, hi]) == Word(c, hi) as int;
  }

  function DoubleWordAt(data: bytes, i: nat): u32
    requires i + 4 <= |data|
  {
    NumberOfFour(data[i], data[i + 1], data[i + 2], data[i + 3]);
    Number([data[i], data[i + 1], data[i + 2], data[i + 3]])
  }

  /** The bytes of a double word from the i-th on, from what is left of it. */
  function HighBytes(d: nat, i: nat): (r: bytes)
    requires i <= 4
    ensures |r| == 4 - i
    decreases 4 - i
  {
    if i == 4 then [] else [d % 0x100] + HighBytes(d / 0x100, i + 1)
  }

  /** What is left of a double word before its i-th byte stays below this. */
  function Room(i: nat): nat
    requires i <= 4
    decreases 4 - i
  {
    if i == 4 then 1 else 0x100 * Room(i + 1)
  }

  lemma {:induction false} HighBytesNumber(d: nat, i: nat)
    requires i <= 4 && d < Room(i)
    ensures Number(HighBytes(d, i)) == d
    decreases 4 - i
  {
    if i < 4 {
      HighBytesNumber(d / 0x100, i + 1);
      assert HighBytes(d, i)[1..] == HighBytes(d / 0x100, i + 1);
    }
  }

  lemma FourBytes(d: u32)
    ensures var r := HighBytes(d, 0); DoubleWordAt(r, 0) == d
  {
    var r := HighBytes(d, 0);
    assert Room(3) == 0x100 && Room(2) == 0x1_0000 && Room(1) == 0x100_0000 && Room(0) == 0x1_0000_0000;
    HighBytesNumber(d, 0);
    assert r == [r[0], r[1], r[2], r[3]];
  }

  function DoubleWordBytes(d: u32): (r: bytes)
    ensures |r| == 4 && DoubleWordAt(r, 0) == d
  {
    FourBytes(d);
    HighBytes(d, 0)
  }

  function Flatten<T>(parts: seq<seq<T>>): seq<T> {
    if parts == [] then [] else parts[0] + Flatten(parts[1..])
  }

  lemma Regroup<T>(a: seq<T>, b: seq<T>, c: seq<T>)
    ensures a + b + c == a + (b + c)
  {
  }

  lemma JoinSlices<T>(s: seq<T>, i: nat, j: nat, k: nat)
    requires i <= j <= k <= |s|
    ensures s[i..j] + s[j..k] == s[i..k]
  {
  }

  lemma {:induction false} FlattenAppend<T>(a: seq<seq<T>>, b: seq<seq<T>>)
    ensures Flatten(a + b) == Flatten(a) + Flatten(b)
  {
    if a == [] {
      assert a + b == b;
    } else {
      assert (a + b)[1..] == a[1..] + b;
      FlattenAppend(a[1..], b);
    }
  }

  function Pow2(n: nat): nat
    ensures Pow2(n) >= 1
  {
    if n == 0 then 1 else 2 * Pow2(n - 1)
  }

  /** The n lowest bits of v, least significant first. */
  function BitsOf(v: nat, n: nat): (bits: seq<bool>)
    ensures |bits| == n
  {
    if n == 0 then [] else [v % 2 == 1] + BitsOf(v / 2, n - 1)
  }

  /** v >> k. */
  function Shift(v: nat, k: nat): (r: nat)
    ensures r <= v
  {
    if k == 0 then v else Shift(v, k - 1) / 2
  }

  /** The number whose bits, least significant first, are the given ones. */
  function FromBits(bits: seq<bool>): nat {
    if bits == [] then 0 else (if bits[0] then 1 else 0) + 2 * FromBits(bits[1..])
  }

  lemma {:induction false} FromBitsBound(bits: seq<bool>)
    ensures FromBits(bits) < Pow2(|bits|)
  {
    if bits != [] { FromBitsBound(bits[1..]); }
  }

  lemma {:induction false} BitsOfFromBits(bits: seq<bool>, n: nat)
    requires |bits| <= n
    ensures BitsOf(FromBits(bits), n)[..|bits|] == bits
  {
    if bits != [] {
      var rest := bits[1..];
      BitsOfFromBits(rest, n - 1);
      assert FromBits(bits) / 2 == FromBits(rest);
      assert BitsOf(FromBits(bits), n)[..|bits|] == [bits[0]] + BitsOf(FromBits(rest), n - 1)[..|rest|];
    }
  }

  lemma {:induction false} FromBitsSnoc(bits: seq<bool>, b: bool)
    ensures FromBits(bits + [b]) == FromBits(bits) + (if b then Pow2(|bits|) else 0)
  {
    if bits == [] {
      assert [b][1..] == [];
    } else {
      assert (bits + [b])[1..] == bits[1..] + [b];
      FromBitsSnoc(bits[1..], b);
    }
  }
}
