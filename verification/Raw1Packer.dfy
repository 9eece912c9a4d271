/** The packer itself: buffers encrypted in place, a table filled at a moving position, and an output file
    whose length the payload cursor follows. */
module Raw1Packer {
  import opened Bytes
  import opened Raw1
  import opened Raw1RoundTrip
  import opened Raw1Repack

  method XcryptBuffer(buf: array<byte>, pos: u32)
    modifies buf
    ensures buf[..] == Crypt(Masked, old(buf[..]), pos)
  {
    for i := 0 to buf.Length
      invariant forall k :: 0 <= k < i ==> buf[k] == Masked(old(buf[k]), pos + k)
      invariant forall k :: i <= k < buf.Length ==> buf[k] == old(buf[k])
    {
      buf[i] := Masked(buf[i], pos + i);
    }
  }

  /** The bytes of a buffer after encryption in place. */
  method Encrypted(plain: bytes, pos: u32) returns (r: bytes)
    ensures r == Crypt(Masked, plain, pos)
  {
    var buf := new byte[|plain|](i requires 0 <= i < |plain| => plain[i]);
    assert buf[..] == plain;
    XcryptBuffer(buf, pos);
    r := buf[..];
  }

  // ---------------------------------------------------------------- the directory table

  lemma {:induction false} TableAppend(a: seq<Entry>, b: seq<Entry>)
    ensures Table(a + b) == Table(a) + Table(b)
  {
    if a == [] {
      assert a + b == b;
    } else {
      assert (a + b)[1..] == a[1..] + b;
      TableAppend(a[1..], b);
      Regroup(EntryBytes(a[0]), Table(a[1..]), Table(b));
    }
  }

  lemma TablePrefix(entries: seq<Entry>, i: nat)
    requires i < |entries|
    ensures Table(entries[..i + 1]) == Table(entries[..i]) + EntryBytes(entries[i])
    ensures |Table(entries[..i + 1])| <= |Table(entries)|
  {
    assert entries[..i + 1] == entries[..i] + [entries[i]] && entries == entries[..i + 1] + entries[i + 1..];
    TableAppend(entries[..i], [entries[i]]);
    TableAppend(entries[..i + 1], entries[i + 1..]);
    assert [entries[i]][1..] == [] && EntryBytes(entries[i]) + [] == EntryBytes(entries[i]);
  }

  method TableLength(entries: seq<Entry>) returns (total: nat)
    ensures total == |Table(entries)|
  {
    total := 0;
    for i := 0 to |entries|
      invariant total == |Table(entries[..i])|
    {
      TablePrefix(entries, i);
      total := total + 13 + |entries[i].name| + 1;
    }
    assert entries[..|entries|] == entries;
  }

  method Put(buf: array<byte>, pos: nat, data: bytes)
    requires pos + |data| <= buf.Length
    modifies buf
    ensures buf[..pos] == old(buf[..pos]) && buf[pos..pos + |data|] == data
  {
    for i := 0 to |data|
      invariant forall k :: 0 <= k < pos ==> buf[k] == old(buf[k])
      invariant forall k :: 0 <= k < i ==> buf[pos + k] == data[k]
    {
      buf[pos + i] := data[i];
    }
  }

  method BuildDirectoryTable(entries: seq<Entry>) returns (buf: array<byte>)
    ensures fresh(buf) && buf[..] == Table(entries)
  {
    var total := TableLength(entries);
    buf := new byte[total](_ => 0);
    var pos := 0;
    for i := 0 to |entries|
      invariant pos == |Table(entries[..i])| <= total && buf[..pos] == Table(entries[..i])
    {
      TablePrefix(entries, i);
      pos := PutEntry(buf, pos, entries[i]);
    }
    assert entries[..|entries|] == entries;
  }

  method PutEntry(buf: array<byte>, pos: nat, e: Entry) returns (next: nat)
    requires pos + |EntryBytes(e)| <= buf.Length
    modifies buf
    ensures next == pos + |EntryBytes(e)| <= buf.Length && buf[..next] == old(buf[..pos]) + EntryBytes(e)
  {
    ghost var before := buf[..pos];
    next := pos + 13 + |e.name| + 1;
    Put(buf, pos, EntryBytes(e));
    JoinSlices(buf[..], 0, pos, pos + |EntryBytes(e)|);
    assert buf[..][0..pos] == before && buf[..][pos..pos + |EntryBytes(e)|] == EntryBytes(e);
  }

  method ParseDirectory(buf: bytes) returns (r: Option<seq<Entry>>)
    ensures r == ParseTable(buf)
  {
    var entries: seq<Entry> := [];
    var pos := 0;
    StartOfTable(buf);
    while pos + 13 <= |buf|
      invariant pos <= |buf|
      invariant ParseTable(buf) == Prepended(entries, ParseTable(buf[pos..]))
    {
      var e, next := ReadEntry(buf, pos);
      if e == None {
        return None;
      }
      PrependStep(entries, e.value, ParseTable(buf[next..]));
      entries := entries + [e.value];
      pos := next;
    }
    EndOfTable(buf, pos, entries);
    r := if pos == |buf| then Some(entries) else None;
  }

  /** The entry at a position and the position after it; None for a name that does not end. */
  method ReadEntry(buf: bytes, pos: nat) returns (e: Option<Entry>, next: nat)
    requires pos + 13 <= |buf|
    ensures e == None ==> ParseTable(buf[pos..]) == None
    ensures e.Some? ==> pos < next <= |buf| && ParseTable(buf[pos..]) == Prepended([e.value], ParseTable(buf[next..]))
  {
    var nameLength := MeasureName(buf, pos + 13);
    next := pos + 13 + nameLength + 1;
    if next > |buf| {
      UnterminatedName(buf, pos);
      e := None;
      return;
    }
    e := Some(NamedEntry(buf, pos, nameLength));
    TableStepAt(buf, pos, nameLength, next);
  }

  function Prepended(entries: seq<Entry>, rest: Option<seq<Entry>>): Option<seq<Entry>> {
    if rest == None then None else Some(entries + rest.value)
  }

  lemma PrependStep(entries: seq<Entry>, e: Entry, rest: Option<seq<Entry>>)
    ensures Prepended(entries, Prepended([e], rest)) == Prepended(entries + [e], rest)
  {
    if rest.Some? { Regroup(entries, [e], rest.value); }
  }

  lemma StartOfTable(buf: bytes)
    ensures ParseTable(buf) == Prepended([], ParseTable(buf[0..]))
  {
    assert buf[0..] == buf;
    var p := ParseTable(buf);
    if p.Some? { assert [] + p.value == p.value; }
  }

  lemma EndOfTable(buf: bytes, pos: nat, entries: seq<Entry>)
    requires pos <= |buf| < pos + 13
    ensures Prepended(entries, ParseTable(buf[pos..])) == if pos == |buf| then Some(entries) else None
  {
    assert entries + [] == entries;
  }

  lemma UnterminatedName(buf: bytes, pos: nat)
    requires pos + 13 <= |buf| && pos + 13 + NameLength(buf[pos + 13..]) >= |buf|
    ensures ParseTable(buf[pos..]) == None
  {
    assert buf[pos..][13..] == buf[pos + 13..];
  }

  /** The fixed fields at a position with a name of n bytes behind them. */
  function NamedEntry(buf: bytes, pos: nat, n: nat): Entry
    requires pos + 13 + n <= |buf|
  {
    Entry(DoubleWordAt(buf, pos), DoubleWordAt(buf, pos + 4), DoubleWordAt(buf, pos + 8), buf[pos + 12],
          buf[pos + 13..pos + 13 + n])
  }

  lemma TableStepAt(buf: bytes, pos: nat, n: nat, next: nat)
    requires pos + 13 <= |buf| && n == NameLength(buf[pos + 13..]) && next == pos + 13 + n + 1 && next <= |buf|
    ensures ParseTable(buf[pos..]) == Prepended([NamedEntry(buf, pos, n)], ParseTable(buf[next..]))
  {
    var e := NamedEntry(buf, pos, n);
    var rest := buf[pos..];
    assert rest[13..] == buf[pos + 13..];
    assert buf[pos + 13..][..n] == buf[pos + 13..pos + 13 + n];
    assert rest[13 + n + 1..] == buf[next..];
    assert EntryAt(rest) == e;
  }

  method MeasureName(buf: bytes, pos: nat) returns (n: nat)
    requires pos <= |buf|
    ensures n == NameLength(buf[pos..])
  {
    n := 0;
    while pos + n < |buf| && buf[pos + n] != 0
      invariant pos + n <= |buf| && n + NameLength(buf[pos + n..]) == NameLength(buf[pos..])
    {
      assert buf[pos + n..][1..] == buf[pos + n + 1..];
      n := n + 1;
    }
  }

  // ---------------------------------------------------------------- writing an archive

  class PackWriter {
    const z: Codec
    var out: bytes
    var payloadCursor: nat
    var entries: seq<Entry>
    var rebuiltCount: nat

    /** The cursor always is the number of bytes written. */
    ghost predicate Valid()
      reads this
    {
      payloadCursor == |out| && z.mask == Masked
    }

    ghost function State(): Layout
      reads this
    {
      Layout(out, entries, rebuiltCount)
    }

    constructor (z: Codec)
      requires z.mask == Masked
      ensures Valid() && State() == EMPTY_LAYOUT && this.z == z
    {
      this.z, out, payloadCursor, entries, rebuiltCount := z, MAGIC, 4, [], 0;
    }

    method WriteExact(data: bytes)
      modifies this`out
      ensures out == old(out) + data
    {
      out := out + data;
    }

    method Place(p: Placement, n: nat)
      requires Valid() && n == |p.payload|
      modifies this
      ensures Valid() && State() == After(old(State()), p)
    {
      WriteExact(p.payload);
      entries := entries + [p.entry];
      if p.rebuilt {
        rebuiltCount := rebuiltCount + 1;
      }
      payloadCursor := payloadCursor + n;
    }

    /** True exactly when the template entry decodes to the file on disk; no answer for flags that cannot be
        decoded, and for a file of the right size whose entry does not decode. */
    method DiskMatchesTemplate(file: bytes, e: Entry, disk: bytes) returns (same: Option<bool>)
      ensures same == Some(true) <==> e.flags <= 1 && |disk| == e.size && Content(z, file, e) == Some(disk)
      ensures same == None <==> e.flags > 1 || (|disk| == e.size && Content(z, file, e) == None)
    {
      if e.flags != 0 && e.flags != 1 {
        return None;
      }
      if |disk| != e.size {
        return Some(false);
      }
      var content := Content(z, file, e);
      if content == None {
        return None;
      }
      return Some(content.value == disk);
    }

    /** Copies the payload of an unchanged entry; a compressed one is decrypted at its old position and
        encrypted for the new one. */
    method RekeyedOrRawCopy(file: bytes, e: Entry) returns (payload: Option<bytes>)
      requires Valid() && payloadCursor <= LIMIT
      ensures payload == Copied(z, file, e, payloadCursor)
      ensures payload.Some? ==> |payload.value| == StoredSize(e)
    {
      payload := Stored(file, e);
      if payload == None {
        return;
      }
      if e.flags == 1 {
        var plain := Encrypted(payload.value, e.offset);
        var moved := Encrypted(plain, payloadCursor);
        payload := Some(moved);
      } else if e.flags != 0 && payloadCursor != e.offset {
        payload := None;
      }
    }

    method Compress(name: bytes, content: bytes) returns (p: Option<Placement>)
      requires Valid() && payloadCursor <= LIMIT
      ensures p == Compressed(z, name, content, payloadCursor)
      ensures p.Some? ==> |p.value.payload| == StoredSize(p.value.entry)
    {
      if |content| > LIMIT {
        return None;
      }
      var packed := z.deflate(content);
      if |packed| > LIMIT {
        return None;
      }
      var payload := Encrypted(packed, payloadCursor);
      p := Some(Placement(Entry(payloadCursor, |content|, |packed|, 1, name), payload, true));
    }

    method Rebuild(e: Entry, content: bytes) returns (p: Option<Placement>)
      requires Valid() && payloadCursor <= LIMIT
      ensures p == Rebuilt(z, e, content, payloadCursor)
      ensures p.Some? ==> |p.value.payload| == StoredSize(p.value.entry)
    {
      if e.flags == 1 {
        p := Compress(e.name, content);
      } else if e.flags != 0 || |content| > LIMIT {
        p := None;
      } else {
        p := Some(Placement(e.(offset := payloadCursor, size := |content|, stored := |content|), content, true));
      }
    }

    method Prepare(file: bytes, e: Entry, disk: Option<bytes>) returns (p: Option<Placement>)
      requires Valid() && payloadCursor <= LIMIT
      ensures p == Unbounded(z, file, e, disk, payloadCursor)
      ensures p.Some? ==> |p.value.payload| == StoredSize(p.value.entry)
    {
      var modified := false;
      if disk.Some? {
        var same := DiskMatchesTemplate(file, e, disk.value);
        if same == None {
          return None;
        }
        modified := !same.value;
      }
      if modified {
        p := Rebuild(e, disk.value);
      } else {
        var payload := RekeyedOrRawCopy(file, e);
        p := if payload == None then None else Some(Placement(e.(offset := payloadCursor), payload.value, false));
      }
    }

    method PlaceEntry(file: bytes, e: Entry, disk: Option<bytes>) returns (ok: bool)
      requires Valid() && payloadCursor <= LIMIT
      modifies this
      ensures Valid()
      ensures var p := Placed(z, file, e, disk, old(payloadCursor));
              ok == p.Some? && (ok ==> State() == After(old(State()), p.value) && payloadCursor <= LIMIT)
    {
      if IsDirectory(e) {
        Place(Placement(e.(offset := payloadCursor, size := 0), [], false), 0);
        return true;
      }
      var p := Prepare(file, e, disk);
      if p == None || payloadCursor + StoredSize(p.value.entry) > LIMIT {
        return false;
      }
      Place(p.value, StoredSize(p.value.entry));
      return true;
    }

    method PlaceTemplate(file: bytes, template: seq<Entry>, disk: Disk) returns (ok: bool)
      requires Valid() && State() == EMPTY_LAYOUT
      modifies this
      ensures Valid()
      ensures var l := PlaceAll(z, file, template, disk);
              ok == l.Some? && (ok ==> State() == l.value && payloadCursor <= LIMIT)
    {
      for i := 0 to |template|
        invariant Valid() && payloadCursor <= LIMIT && PlaceAll(z, file, template[..i], disk) == Some(State())
      {
        assert template[..i + 1][..i] == template[..i];
        var placed := PlaceEntry(file, template[i], disk(template[i].name));
        if !placed {
          PlaceAllFails(z, file, template, disk, i + 1);
          return false;
        }
      }
      assert template[..|template|] == template;
      return true;
    }

    method NameExists(name: bytes) returns (found: bool)
      ensures found <==> exists e <- entries :: e.name == name
    {
      for i := 0 to |entries|
        invariant forall k :: 0 <= k < i ==> entries[k].name != name
      {
        if entries[i].name == name {
          return true;
        }
      }
      return false;
    }

    method AddFile(path: bytes, disk: Disk) returns (ok: bool)
      requires Valid() && payloadCursor <= LIMIT
      modifies this
      ensures Valid()
      ensures var l := Added(z, old(State()), path, disk);
              ok == l.Some? && (ok ==> State() == l.value && payloadCursor <= LIMIT)
    {
      var name := Normalized(path);
      var taken := NameExists(name);
      var content := disk(path);
      if taken || content == None {
        return false;
      }
      var p := Compress(name, content.value);
      if p == None || payloadCursor + StoredSize(p.value.entry) > LIMIT {
        return false;
      }
      Place(p.value, StoredSize(p.value.entry));
      return true;
    }

    method AddFiles(paths: seq<bytes>, disk: Disk) returns (ok: bool)
      requires Valid() && payloadCursor <= LIMIT
      modifies this
      ensures Valid()
      ensures var l := AddAll(z, old(State()), paths, disk);
              ok == l.Some? && (ok ==> State() == l.value && payloadCursor <= LIMIT)
    {
      ghost var start := State();
      for i := 0 to |paths|
        invariant Valid() && payloadCursor <= LIMIT && AddAll(z, start, paths[..i], disk) == Some(State())
      {
        assert paths[..i + 1][..i] == paths[..i];
        var added := AddFile(paths[i], disk);
        if !added {
          AddAllFails(z, start, paths, disk, i + 1);
          return false;
        }
      }
      assert paths[..|paths|] == paths;
      return true;
    }

    method WriteEncrypted(plain: bytes, pos: u32)
      requires z.mask == Masked
      modifies this`out
      ensures out == old(out) + Crypt(z.mask, plain, pos)
    {
      var buf := Encrypted(plain, pos);
      WriteExact(buf);
    }

    method DirectoryBytes() returns (directory: bytes)
      ensures directory == z.deflate(Table(entries))
    {
      var plain := BuildDirectoryTable(entries);
      directory := z.deflate(plain[..]);
    }

    /** Header, directory and directory pointer behind the payloads. */
    method WriteArchive(h: Header, hash: u16) returns (ok: bool)
      requires Valid()
      modifies this`out
      ensures var file := Closed(z, old(out), h, entries, hash);
              ok == file.Some? && (ok ==> out == file.value)
    {
      if payloadCursor + HeaderSize(h) > LIMIT {
        return false;
      }
      var directory := DirectoryBytes();
      if |directory| > LIMIT {
        return false;
      }
      ok := WritePieces(HeaderBytes(h, hash, HeaderValue(h, entries)), directory,
                        DoubleWordBytes(payloadCursor + HeaderSize(h)), payloadCursor + HeaderSize(h));
    }

    method WritePieces(header: bytes, directory: bytes, pointer: bytes, dirOffset: u32) returns (ok: bool)
      requires Valid() && dirOffset == payloadCursor + |header|
      modifies this`out
      ensures ok <==> dirOffset + |directory| + 4 <= LIMIT
      ensures ok ==> out == Layered(z, old(out), header, directory, pointer)
    {
      WriteEncrypted(header, payloadCursor);
      WriteEncrypted(directory, dirOffset);
      ok := dirOffset + |directory| + 4 <= LIMIT;
      if ok {
        WriteEncrypted(pointer, dirOffset + |directory|);
      }
    }

    /** Payloads of all entries in their order. */
    method LayOutPayloads(file: bytes, pack: Pack, disk: Disk, mode: Mode, paths: seq<bytes>) returns (ok: bool)
      requires Valid() && State() == EMPTY_LAYOUT
      modifies this
      ensures Valid()
      ensures var l := LayOut(z, file, pack, disk, mode, paths);
              ok == l.Some? && (ok ==> State() == l.value)
    {
      if mode != Replace && paths == [] {
        return false;
      }
      ok := true;
      if mode != Overlay {
        ok := PlaceTemplate(file, pack.entries, disk);
      }
      if ok && mode != Replace {
        ok := AddFiles(paths, disk);
      }
    }
  }

  /** A failure on the way is a failure of the whole. */
  lemma {:induction false} PlaceAllFails(z: Codec, file: bytes, entries: seq<Entry>, disk: Disk, n: nat)
    requires n <= |entries| && PlaceAll(z, file, entries[..n], disk) == None
    ensures PlaceAll(z, file, entries, disk) == None
    decreases |entries| - n
  {
    if n < |entries| {
      assert entries[..n + 1][..n] == entries[..n];
      PlaceAllFails(z, file, entries, disk, n + 1);
    } else {
      assert entries[..n] == entries;
    }
  }

  lemma {:induction false} AddAllFails(z: Codec, l: Layout, paths: seq<bytes>, disk: Disk, n: nat)
    requires n <= |paths| && AddAll(z, l, paths[..n], disk) == None
    ensures AddAll(z, l, paths, disk) == None
    decreases |paths| - n
  {
    if n < |paths| {
      assert paths[..n + 1][..n] == paths[..n];
      AddAllFails(z, l, paths, disk, n + 1);
    } else {
      assert paths[..n] == paths;
    }
  }

  /** The tool on a parsed template: what it writes is what Repacked says, so reading it back gives every entry
      with the content it should have. */
  method Repack(z: Codec, file: bytes, pack: Pack, disk: Disk, mode: Mode, paths: seq<bytes>, hash: u16)
    returns (output: Option<bytes>)
    requires z.mask == Masked
    ensures output == Repacked(z, file, pack, disk, mode, paths, hash)
  {
    var w := new PackWriter(z);
    var placed := w.LayOutPayloads(file, pack, disk, mode, paths);
    if !placed {
      return None;
    }
    if mode == Replace && w.rebuiltCount == 0 && (!pack.header.secondary || hash == pack.hash) {
      return Some(file);
    }
    var closed := w.WriteArchive(pack.header, hash);
    output := if closed then Some(w.out) else None;
  }
}
