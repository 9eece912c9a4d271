/** An archive that was written is read back as the same header and entries. */
module Raw1RoundTrip {
  import opened Bytes
  import opened BitXor
  import opened Raw1

  // ---------------------------------------------------------------- the directory table

  lemma {:induction false} NameReadsBack(name: bytes, rest: bytes)
    requires 0 !in name
    ensures NameLength(name + [0] + rest) == |name|
  {
    if name != [] {
      assert name[0] in name && forall b <- name[1..] :: b in name;
      assert (name + [0] + rest)[1..] == name[1..] + [0] + rest;
      NameReadsBack(name[1..], rest);
    }
  }

  lemma EntryReadsBack(e: Entry, rest: bytes)
    requires 0 !in e.name
    ensures var buf := EntryHead(e) + (e.name + [0] + rest);
            EntryAt(buf) == e && NameLength(buf[13..]) == |e.name| && buf[13 + |e.name| + 1..] == rest
  {
    var buf := EntryHead(e) + (e.name + [0] + rest);
    assert DoubleWordAt(DoubleWordBytes(e.offset), 0) == e.offset;
    assert DoubleWordAt(DoubleWordBytes(e.size), 0) == e.size;
    assert DoubleWordAt(DoubleWordBytes(e.stored), 0) == e.stored;
    NameReadsBack(e.name, rest);
    assert buf[13..] == e.name + [0] + rest;
    assert (e.name + [0] + rest)[..|e.name|] == e.name;
  }

  lemma TableStep(e: Entry, rest: bytes, entries: seq<Entry>)
    requires 0 !in e.name && ParseTable(rest) == Some(entries)
    ensures ParseTable(EntryBytes(e) + rest) == Some([e] + entries)
  {
    Regroup(EntryHead(e), e.name + [0], rest);
    EntryReadsBack(e, rest);
  }

  /** The table of any entries parses to exactly those entries. */
  lemma {:induction false} TableReadsBack(entries: seq<Entry>)
    requires NamesEnd(entries)
    ensures ParseTable(Table(entries)) == Some(entries)
  {
    if entries != [] {
      var e, rest := entries[0], entries[1..];
      assert 0 !in e.name && [e] + rest == entries;
      assert forall i :: 0 <= i < |rest| ==> rest[i] == entries[i + 1];
      TableReadsBack(rest);
      var table := Table(rest);
      TableStep(e, table, rest);
      assert Table(entries) == EntryBytes(e) + table;
    }
  }

  // ---------------------------------------------------------------- reading what was encrypted in place

  /** A piece of plain text encrypted where it is written reads back at its place. */
  lemma PieceReadsBack(z: Codec, before: bytes, plain: bytes, after: bytes, k: nat, n: nat)
    requires SelfInverse(z.mask) && k + n <= |plain|
    ensures Decrypted(z, before + Crypt(z.mask, plain, |before|) + after, |before| + k, n) == plain[k..k + n]
  {
    var file := before + Crypt(z.mask, plain, |before|) + after;
    var pos := |before| + k;
    assert file[pos..pos + n] == Crypt(z.mask, plain, |before|)[k..k + n];
    CryptSlice(z.mask, plain, |before|, k, k + n);
    CryptUndo(z.mask, plain[k..k + n], pos);
  }

  // ---------------------------------------------------------------- the header

  /** What the bytes of a header say. */
  predicate HeaderSays(b: bytes, h: Header, hash: u16, value: u32) {
    && |b| == HeaderSize(h) && DoubleWordAt(b, 0) == h.wordA && DoubleWordAt(b, 4) == h.wordB
    && (if h.secondary then WordAt(b, 8) == hash && DoubleWordAt(b, 10) == value else DoubleWordAt(b, 8) == value)
  }

  lemma HeaderFields(h: Header, hash: u16, value: u32)
    ensures HeaderSays(HeaderBytes(h, hash, value), h, hash, value)
  {
    assert DoubleWordAt(DoubleWordBytes(h.wordA), 0) == h.wordA;
    assert DoubleWordAt(DoubleWordBytes(h.wordB), 0) == h.wordB;
    assert DoubleWordAt(DoubleWordBytes(value), 0) == value;
  }

  /** The double word two bytes further on, from two that follow each other. */
  function Shifted(a: u32, b: u32): u32 { a / 0x1_0000 + b % 0x1_0000 * 0x1_0000 }

  /** The two words a reader finds where a primary header would be, if the header is secondary, have the
      sum of a primary one. */
  predicate LooksPrimary(h: Header, hash: u16) {
    SumsTo(Shifted(h.wordA, h.wordB), Shifted(h.wordB, hash), PRIMARY_SUM)
  }

  lemma WordsOf(b: bytes, k: nat)
    requires k + 4 <= |b|
    ensures WordAt(b, k) as int == DoubleWordAt(b, k) % 0x1_0000
    ensures WordAt(b, k + 2) as int == DoubleWordAt(b, k) / 0x1_0000
  {
    NumberOfFour(b[k], b[k + 1], b[k + 2], b[k + 3]);
  }

  lemma ShiftedRead(b: bytes, k: nat, a: u32, c: u32)
    requires k + 6 <= |b| && WordAt(b, k + 2) as int == a / 0x1_0000 && WordAt(b, k + 4) as int == c % 0x1_0000
    ensures DoubleWordAt(b[2..], k) == Shifted(a, c)
  {
    assert b[2..][k] == b[k + 2] && b[2..][k + 1] == b[k + 3] && b[2..][k + 2] == b[k + 4] && b[2..][k + 3] == b[k + 5];
    NumberOfFour(b[k + 2], b[k + 3], b[k + 4], b[k + 5]);
  }

  lemma ShiftedHeader(b: bytes, h: Header, hash: u16, value: u32)
    requires h.secondary && HeaderSays(b, h, hash, value)
    ensures DoubleWordAt(b[2..], 0) == Shifted(h.wordA, h.wordB) && DoubleWordAt(b[2..], 4) == Shifted(h.wordB, hash)
  {
    WordsOf(b, 0);
    WordsOf(b, 4);
    ShiftedRead(b, 0, h.wordA, h.wordB);
    ShiftedRead(b, 4, h.wordB, hash);
  }

  /** The magic sum of a header is the one of its mode. */
  predicate ValidHeader(h: Header) { SumsTo(h.wordA, h.wordB, if h.secondary then SECONDARY_SUM else PRIMARY_SUM) }

  /** Two words of two halves each: their sum and the sum of the words two bytes further on cannot be the two
      magic numbers modulo 2^32 at once. */
  lemma SumsExclude(upper: nat, lower: nat, rest: nat, k: int, j: int)
    requires lower < 0x2_0000
    requires 0x1_0000 * upper + lower == SECONDARY_SUM + WRAP * k
    ensures upper + 0x1_0000 * rest != PRIMARY_SUM + WRAP * j
  {
  }

  lemma Halves(d: u32) returns (high: u16, low: u16)
    ensures high == d / 0x1_0000 && low == d % 0x1_0000 && d as int == 0x1_0000 * high as int + low as int
  {
    high, low := d / 0x1_0000, d % 0x1_0000;
  }

  /** The reader never takes a secondary header for a primary one. */
  lemma SecondaryNeverLooksPrimary(h: Header, hash: u16)
    requires h.secondary && ValidHeader(h)
    ensures !LooksPrimary(h, hash)
  {
    var a1, a0 := Halves(h.wordA);
    var b1, b0 := Halves(h.wordB);
    var s := Shifted(h.wordA, h.wordB) as int + Shifted(h.wordB, hash) as int;
    assert hash % 0x1_0000 == hash;
    assert s == a1 as int + b1 as int + 0x1_0000 * (b0 as int + hash as int);
    var k := if h.wordA as int + h.wordB as int == SECONDARY_SUM then 0 else 1;
    SumsExclude(a1 as int + b1 as int, a0 as int + b0 as int, b0 as int + hash as int, k, 0);
    SumsExclude(a1 as int + b1 as int, a0 as int + b0 as int, b0 as int + hash as int, k, 1);
  }

  /** A primary archive is readable up to a million entries, a secondary one always. */
  predicate Readable(h: Header, count: nat) { h.secondary || count <= MAX_PRIMARY_COUNT }

  // ---------------------------------------------------------------- the whole archive

  /** The pieces of a file as its reader decrypts them. */
  predicate Stands(z: Codec, file: bytes, d: nat, header: bytes, directory: bytes, pointer: bytes) {
    && 8 <= |file| && file[..4] == MAGIC && |header| <= d && |file| == d + |directory| + |pointer| && |pointer| == 4
    && Decrypted(z, file, |file| - 4, 4) == pointer && Decrypted(z, file, d, |directory|) == directory
    && Decrypted(z, file, d - |header|, |header|) == header
    && (|header| == 14 ==> Decrypted(z, file, d - 12, 12) == header[2..])
  }

  lemma LayersStand(z: Codec, out: bytes, header: bytes, directory: bytes, pointer: bytes, file: bytes, d: nat)
    requires SelfInverse(z.mask) && |pointer| == 4 && MAGIC <= out
    requires file == Layered(z, out, header, directory, pointer) && d == |out| + |header|
    ensures Stands(z, file, d, header, directory, pointer)
  {
    var one := Crypt(z.mask, header, |out|);
    var two, three := Crypt(z.mask, directory, d), Crypt(z.mask, pointer, d + |directory|);
    PiecesStand(z, file, out, one, two, three, d, header, directory, pointer);
  }

  lemma PiecesStand(z: Codec, file: bytes, out: bytes, one: bytes, two: bytes, three: bytes, d: nat, header: bytes,
                    directory: bytes, pointer: bytes)
    requires SelfInverse(z.mask) && |pointer| == 4 && MAGIC <= out && d == |out| + |header| &&
             file == out + one + two + three
    requires one == Crypt(z.mask, header, |out|) && two == Crypt(z.mask, directory, d)
    requires three == Crypt(z.mask, pointer, d + |directory|)
    ensures Stands(z, file, d, header, directory, pointer)
  {
    HeaderStandsIn(z, file, out, one, two + three, header);
    WholePiece(z, out + one, directory, three);
    WholePiece(z, out + one + two, pointer, []);
    assert file + [] == file;
  }

  lemma HeaderStandsIn(z: Codec, file: bytes, out: bytes, one: bytes, rest: bytes, header: bytes)
    requires SelfInverse(z.mask) && MAGIC <= out && one == Crypt(z.mask, header, |out|)
    requires |file| == |out + one + rest| && file == out + one + rest
    ensures file[..4] == MAGIC && Decrypted(z, file, |out|, |header|) == header
    ensures |header| == 14 ==> Decrypted(z, file, |out| + 2, 12) == header[2..]
  {
    assert file[..4] == out[..4];
    WholePiece(z, out, header, rest);
    if |header| == 14 { PieceReadsBack(z, out, header, rest, 2, 12); }
  }

  lemma WholePiece(z: Codec, before: bytes, plain: bytes, after: bytes)
    requires SelfInverse(z.mask)
    ensures Decrypted(z, before + Crypt(z.mask, plain, |before|) + after, |before|, |plain|) == plain
  {
    PieceReadsBack(z, before, plain, after, 0, |plain|);
    assert plain[0..0 + |plain|] == plain;
  }

  /** The reader's choice between the two modes. */
  lemma StandsChoice(z: Codec, file: bytes, d: u32, header: bytes, directory: bytes, pointer: bytes, plain: bytes,
                     entries: seq<Entry>)
    requires Stands(z, file, d, header, directory, pointer) && 14 <= d < |file| - 4
    requires z.inflate(directory) == Some(plain) && ParseTable(plain) == Some(entries)
    requires |header| == 12 || |header| == 14
    ensures ParseAt(z, file, d) ==
            Choice(d, if |header| == 12 then header else header[2..],
                   ParseSecondary(d, Decrypted(z, file, d - 14, 14), Some(entries)), entries)
  {
    assert Directory(z, file, d) == Some(entries);
  }

  /** What the reader makes of a header, given its last twelve bytes and the pack it would be if secondary. */
  function Choice(d: u32, head: bytes, other: Option<Pack>, entries: seq<Entry>): Option<Pack>
    requires |head| == 12
  {
    if SumsTo(DoubleWordAt(head, 0), DoubleWordAt(head, 4), PRIMARY_SUM) then ParsePrimary(d, head, Some(entries))
    else other
  }

  function Expected(d: u32, h: Header, hash: u16, value: u32, entries: seq<Entry>): Pack {
    Pack(d, h, if h.secondary then hash else 0, value, entries)
  }

  lemma HeaderParses(d: u32, header: bytes, head: bytes, other: Option<Pack>, h: Header, hash: u16, value: u32,
                     entries: seq<Entry>)
    requires HeaderSays(header, h, hash, value) && ValidHeader(h) && (h.secondary || value == |entries|)
    requires h.secondary ==> other == ParseSecondary(d, header, Some(entries)) && head == header[2..]
    requires !h.secondary ==> head == header
    ensures Choice(d, head, other, entries) ==
            if Readable(h, |entries|) then Some(Expected(d, h, hash, value, entries)) else None
  {
    if h.secondary {
      ShiftedHeader(header, h, hash, value);
      SecondaryNeverLooksPrimary(h, hash);
    }
  }

  lemma ReaderSees(z: Codec, file: bytes, d: u32, header: bytes, directory: bytes, pointer: bytes, plain: bytes,
                   entries: seq<Entry>)
    returns (head: bytes, other: Option<Pack>)
    requires Stands(z, file, d, header, directory, pointer) && |file| <= LIMIT && 14 <= d && directory != []
    requires DoubleWordAt(pointer, 0) == d && z.inflate(directory) == Some(plain) && ParseTable(plain) == Some(entries)
    requires |header| == 12 || |header| == 14
    ensures head == if |header| == 12 then header else header[2..]
    ensures |header| == 14 ==> other == ParseSecondary(d, header, Some(entries))
    ensures ParsePack(z, file) == Choice(d, head, other, entries)
  {
    assert d < |file| - 4 && ParsePack(z, file) == ParseAt(z, file, d);
    StandsChoice(z, file, d, header, directory, pointer, plain, entries);
    head := if |header| == 12 then header else header[2..];
    other := ParseSecondary(d, Decrypted(z, file, d - 14, 14), Some(entries));
  }

  lemma StandsParses(z: Codec, file: bytes, d: u32, h: Header, hash: u16, value: u32, header: bytes, directory: bytes,
                     pointer: bytes, plain: bytes, entries: seq<Entry>)
    requires Stands(z, file, d, header, directory, pointer) && |file| <= LIMIT && 14 <= d && directory != []
    requires DoubleWordAt(pointer, 0) == d && z.inflate(directory) == Some(plain) && ParseTable(plain) == Some(entries)
    requires HeaderSays(header, h, hash, value) && ValidHeader(h) && (h.secondary || value == |entries|)
    ensures ParsePack(z, file) == if Readable(h, |entries|) then Some(Expected(d, h, hash, value, entries)) else None
  {
    var head, other := ReaderSees(z, file, d, header, directory, pointer, plain, entries);
    HeaderParses(d, header, head, other, h, hash, value, entries);
  }

  /** The pieces of a written archive, and what they say. */
  lemma ClosedPieces(z: Codec, out: bytes, h: Header, entries: seq<Entry>, hash: u16, file: bytes, d: u32)
    returns (header: bytes, directory: bytes, pointer: bytes, plain: bytes)
    requires Compresses(z) && NamesEnd(entries) && MAGIC <= out
    requires Closed(z, out, h, entries, hash) == Some(file) && d == |out| + HeaderSize(h)
    ensures 14 <= d == |out| + |header|
    ensures file == Layered(z, out, header, directory, pointer) && |out| + |header| + |directory| + 4 <= LIMIT
    ensures |header| == HeaderSize(h) && |pointer| == 4 && DoubleWordAt(pointer, 0) == d && |file| <= LIMIT
    ensures HeaderSays(header, h, hash, HeaderValue(h, entries))
    ensures directory != [] && z.inflate(directory) == Some(plain) && ParseTable(plain) == Some(entries)
  {
    header, directory, pointer, plain := WrittenPieces(z, h, entries, hash, d);
    ClosedLayers(z, out, h, entries, hash, file, header, directory, pointer);
  }

  lemma ClosedLayers(z: Codec, out: bytes, h: Header, entries: seq<Entry>, hash: u16, file: bytes, header: bytes,
                     directory: bytes, pointer: bytes)
    requires Closed(z, out, h, entries, hash) == Some(file) && |out| + HeaderSize(h) <= LIMIT
    requires header == HeaderBytes(h, hash, HeaderValue(h, entries)) && directory == z.deflate(Table(entries))
    requires pointer == DoubleWordBytes(|out| + HeaderSize(h))
    ensures file == Layered(z, out, header, directory, pointer) && |out| + |header| + |directory| + 4 <= LIMIT
  {
  }

  lemma WrittenPieces(z: Codec, h: Header, entries: seq<Entry>, hash: u16, d: u32)
    returns (header: bytes, directory: bytes, pointer: bytes, plain: bytes)
    requires Compresses(z) && NamesEnd(entries)
    ensures header == HeaderBytes(h, hash, HeaderValue(h, entries)) &&
            HeaderSays(header, h, hash, HeaderValue(h, entries))
    ensures directory == z.deflate(Table(entries)) && pointer == DoubleWordBytes(d)
    ensures |pointer| == 4 && DoubleWordAt(pointer, 0) == d
    ensures directory != [] && z.inflate(directory) == Some(plain) && ParseTable(plain) == Some(entries)
  {
    header := HeaderBytes(h, hash, HeaderValue(h, entries));
    directory, pointer := z.deflate(Table(entries)), DoubleWordBytes(d);
    plain := Table(entries);
    HeaderFields(h, hash, HeaderValue(h, entries));
    TableReadsBack(entries);
  }

  lemma PrimaryValue(h: Header, entries: seq<Entry>)
    requires |entries| < WRAP
    ensures h.secondary || HeaderValue(h, entries) == |entries|
  {
  }

  /** Reading a written archive gives its header, its mode and its entries; it is refused exactly when it is a
      primary archive of more than a million entries. */
  lemma ArchiveReadsBack(z: Codec, out: bytes, h: Header, entries: seq<Entry>, hash: u16, file: bytes, d: u32)
    requires ValidCodec(z) && NamesEnd(entries) && ValidHeader(h) && MAGIC <= out && |entries| < WRAP
    requires Closed(z, out, h, entries, hash) == Some(file) && d == |out| + HeaderSize(h)
    ensures ParsePack(z, file) ==
            if Readable(h, |entries|) then Some(Expected(d, h, hash, HeaderValue(h, entries), entries)) else None
  {
    PrimaryValue(h, entries);
    var header, directory, pointer, plain := ClosedPieces(z, out, h, entries, hash, file, d);
    LayersStand(z, out, header, directory, pointer, file, d);
    StandsParses(z, file, d, h, hash, HeaderValue(h, entries), header, directory, pointer, plain, entries);
  }
}
