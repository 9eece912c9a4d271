/** The raw1 pack container: positional cipher, directory table, layout of an archive and its reader. None
    stands for the error exit of the tool. */
module Raw1 {
  import opened Bytes
  import opened BitXor

  const WRAP := 0x1_0000_0000
  const LIMIT := 0xFFFF_FFFF
  const MAGIC: bytes := [0x72, 0x61, 0x77, 0x31]
  const PRIMARY_SUM := 0x10203040
  const SECONDARY_SUM := 0x50607080
  const MAX_PRIMARY_COUNT := 1_000_000
  const TABLE: bytes := [0x42, 0x8F, 0xE5, 0xFF, 0x02, 0x02, 0x99, 0x8F, 0x8F, 0x01, 0x77, 0x83, 0x9E]

  // ---------------------------------------------------------------- the cipher

  /** pos & 0x8f keeps bits 0 to 3 and 7; the shifted position is added modulo 256. */
  function Key(pos: u32): byte {
    var masked: byte := pos % 16 + pos / 128 % 2 * 128;
    (Xor(masked, TABLE[pos % 13]) as int + pos / 128 % 0x100) % 0x100
  }

  /** A byte encrypted at an absolute position. */
  function Masked(b: byte, pos: nat): byte { Xor(b, Key(pos % WRAP)) }

  /** The rest of the format is written for any way of masking a byte at a position. */
  type Mask = (byte, nat) -> byte

  function Crypt(mask: Mask, buf: bytes, pos: nat): (r: bytes)
    ensures |r| == |buf|
  {
    seq(|buf|, i requires 0 <= i < |buf| => mask(buf[i], pos + i))
  }

  ghost predicate SelfInverse(mask: Mask) { forall b: byte, pos: nat :: mask(mask(b, pos), pos) == b }

  lemma MaskedIsSelfInverse()
    ensures SelfInverse(Masked)
  {
    forall b: byte, pos: nat ensures Masked(Masked(b, pos), pos) == b { XorUndo(b, Key(pos % WRAP)); }
  }

  /** The cipher is its own inverse at the same position. */
  lemma CryptUndo(mask: Mask, buf: bytes, pos: nat)
    requires SelfInverse(mask)
    ensures Crypt(mask, Crypt(mask, buf, pos), pos) == buf
  {
  }

  lemma CryptSlice(mask: Mask, buf: bytes, pos: nat, i: nat, j: nat)
    requires i <= j <= |buf|
    ensures Crypt(mask, buf, pos)[i..j] == Crypt(mask, buf[i..j], pos + i)
  {
  }

  // ---------------------------------------------------------------- the directory table

  /** stored is the size in the pack of a compressed entry, size its size after decoding. */
  datatype Entry = Entry(offset: u32, size: u32, stored: u32, flags: byte, name: bytes)

  function StoredSize(e: Entry): u32 { if e.flags == 1 then e.stored else e.size }

  /** Names are C strings. */
  ghost predicate NamesEnd(entries: seq<Entry>) { forall i :: 0 <= i < |entries| ==> 0 !in entries[i].name }

  function EntryHead(e: Entry): (r: bytes)
    ensures |r| == 13
  {
    DoubleWordBytes(e.offset) + DoubleWordBytes(e.size) + DoubleWordBytes(e.stored) + [e.flags]
  }

  function EntryBytes(e: Entry): bytes { EntryHead(e) + (e.name + [0]) }

  function Table(entries: seq<Entry>): bytes {
    if entries == [] then [] else EntryBytes(entries[0]) + Table(entries[1..])
  }

  /** Where the first zero byte is, or the length. */
  function NameLength(buf: bytes): (n: nat)
    ensures n <= |buf| && (n < |buf| ==> buf[n] == 0) && forall i :: 0 <= i < n ==> buf[i] != 0
  {
    if buf == [] || buf[0] == 0 then 0 else 1 + NameLength(buf[1..])
  }

  function EntryAt(buf: bytes): Entry
    requires |buf| >= 13
  {
    Entry(DoubleWordAt(buf, 0), DoubleWordAt(buf, 4), DoubleWordAt(buf, 8), buf[12], buf[13..][..NameLength(buf[13..])])
  }

  function ParseTable(buf: bytes): Option<seq<Entry>>
    decreases |buf|
  {
    if |buf| < 13 then if buf == [] then Some([]) else None
    else
      var n := NameLength(buf[13..]);
      if 13 + n == |buf| then None
      else
        var rest := ParseTable(buf[13 + n + 1..]);
        if rest == None then None else Some([EntryAt(buf)] + rest.value)
  }

  // ---------------------------------------------------------------- the archive

  /** The compressor, from outside, and the cipher. */
  datatype Codec = Codec(deflate: bytes -> bytes, inflate: bytes -> Option<bytes>, mask: Mask)

  /** All that is assumed of the compressor: inflate undoes deflate, whose output is never empty. */
  ghost predicate Compresses(z: Codec) { forall b: bytes :: z.deflate(b) != [] && z.inflate(z.deflate(b)) == Some(b) }

  ghost predicate ValidCodec(z: Codec) { Compresses(z) && SelfInverse(z.mask) }

  /** The codec of the tool: any such compressor with the cipher above. */
  lemma ToolCodecIsValid(z: Codec)
    requires Compresses(z) && z.mask == Masked
    ensures ValidCodec(z)
  {
    MaskedIsSelfInverse();
  }

  datatype Header = Header(wordA: u32, wordB: u32, secondary: bool)

  function HeaderSize(h: Header): nat { if h.secondary then 14 else 12 }

  /** What a size is when it is kept in 32 bits. */
  function Low32(n: nat): u32 { if n < WRAP then n else Low32(n - WRAP) }

  /** The last field of a header: the number of entries, or the size of the plain table. */
  function HeaderValue(h: Header, entries: seq<Entry>): u32 {
    Low32(if h.secondary then |Table(entries)| else |entries|)
  }

  function HeaderBytes(h: Header, hash: u16, value: u32): (r: bytes)
    ensures |r| == HeaderSize(h)
  {
    DoubleWordBytes(h.wordA) + DoubleWordBytes(h.wordB) + (if h.secondary then WordBytes(hash) else []) +
        DoubleWordBytes(value)
  }

  /** Three pieces of plain text, each encrypted at its place behind what was written before. */
  function Layered(z: Codec, out: bytes, header: bytes, directory: bytes, pointer: bytes): (r: bytes)
    ensures out <= r
  {
    var d := |out| + |header|;
    out + Crypt(z.mask, header, |out|) + Crypt(z.mask, directory, d) + Crypt(z.mask, pointer, d + |directory|)
  }

  /** An archive from the bytes written so far: header, directory and directory pointer follow. */
  function Closed(z: Codec, out: bytes, h: Header, entries: seq<Entry>, hash: u16): Option<bytes> {
    var dirOffset := |out| + HeaderSize(h);
    var directory := z.deflate(Table(entries));
    if dirOffset > LIMIT || dirOffset + |directory| + 4 > LIMIT then None
    else Some(Layered(z, out, HeaderBytes(h, hash, HeaderValue(h, entries)), directory, DoubleWordBytes(dirOffset)))
  }

  datatype Pack = Pack(dirOffset: u32, header: Header, hash: u16, value: u32, entries: seq<Entry>)

  /** Bytes of a file, decrypted at their position. */
  function Decrypted(z: Codec, file: bytes, pos: nat, n: nat): (r: bytes)
    requires pos + n <= |file|
    ensures |r| == n
  {
    Crypt(z.mask, file[pos..pos + n], pos)
  }

  function Directory(z: Codec, file: bytes, dirOffset: nat): Option<seq<Entry>>
    requires dirOffset + 4 <= |file|
  {
    var plain := z.inflate(Decrypted(z, file, dirOffset, |file| - 4 - dirOffset));
    if plain == None then None else ParseTable(plain.value)
  }

  /** The sum of two 32-bit words, which wraps around once at most. */
  predicate SumsTo(a: u32, b: u32, sum: int) { var s := a as int + b as int; s == sum || s == sum + WRAP }

  function ParsePack(z: Codec, file: bytes): Option<Pack> {
    if |file| < 8 || |file| > LIMIT || file[..4] != MAGIC then None
    else
      var dirOffset := DoubleWordAt(Decrypted(z, file, |file| - 4, 4), 0);
      // A header before the start of the file cannot be sought.
      if dirOffset < 12 || dirOffset >= |file| - 4 then None else ParseAt(z, file, dirOffset)
  }

  function ParseAt(z: Codec, file: bytes, dirOffset: u32): Option<Pack>
    requires 12 <= dirOffset < |file| - 4
  {
    var head := Decrypted(z, file, dirOffset - 12, 12);
    if SumsTo(DoubleWordAt(head, 0), DoubleWordAt(head, 4), PRIMARY_SUM) then
      ParsePrimary(dirOffset, head, Directory(z, file, dirOffset))
    else if dirOffset < 14 then None
    else ParseSecondary(dirOffset, Decrypted(z, file, dirOffset - 14, 14), Directory(z, file, dirOffset))
  }

  function ParsePrimary(dirOffset: u32, head: bytes, entries: Option<seq<Entry>>): Option<Pack>
    requires |head| == 12
  {
    var count := DoubleWordAt(head, 8);
    if count > MAX_PRIMARY_COUNT || entries == None || |entries.value| != count then None
    else Some(Pack(dirOffset, Header(DoubleWordAt(head, 0), DoubleWordAt(head, 4), false), 0, count, entries.value))
  }

  function ParseSecondary(dirOffset: u32, head: bytes, entries: Option<seq<Entry>>): Option<Pack>
    requires |head| == 14
  {
    var a, b := DoubleWordAt(head, 0), DoubleWordAt(head, 4);
    if !SumsTo(a, b, SECONDARY_SUM) || entries == None then None
    else Some(Pack(dirOffset, Header(a, b, true), WordAt(head, 8), DoubleWordAt(head, 10), entries.value))
  }

  // ---------------------------------------------------------------- payloads

  function Stored(file: bytes, e: Entry): Option<bytes> {
    var n := StoredSize(e);
    if n == 0 then Some([])
    else if e.offset + n > |file| then None
    else Some(file[e.offset..e.offset + n])
  }

  /** The decoded content of an entry; flags other than 0 and 1 cannot be decoded. */
  function Content(z: Codec, file: bytes, e: Entry): Option<bytes> {
    var raw := Stored(file, e);
    if raw == None || e.flags == 0 then raw
    else if e.flags == 1 then z.inflate(Crypt(z.mask, raw.value, e.offset))
    else None
  }
}
