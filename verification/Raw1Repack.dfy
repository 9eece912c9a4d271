/** Repacking: template entries kept, moved or rebuilt from files on disk, and new files added. */
module Raw1Repack {
  import opened Bytes
  import opened Raw1
  import opened Raw1RoundTrip

  const SLASH: byte := 0x2F
  const BACKSLASH: byte := 0x5C

  /** What the input directory has under a path. */
  type Disk = bytes -> Option<bytes>

  predicate IsSeparator(b: byte) { b == SLASH || b == BACKSLASH }

  predicate IsDirectory(e: Entry) { e.name != [] && IsSeparator(e.name[|e.name| - 1]) }

  /** Whether a file on disk is what the template already has; entries with other flags cannot be compared. */
  function Matches(z: Codec, file: bytes, e: Entry, disk: bytes): Option<bool> {
    if e.flags > 1 then None
    else if |disk| != e.size then Some(false)
    else
      var content := Content(z, file, e);
      if content == None then None else Some(content.value == disk)
  }

  /** The payload of an unchanged entry at its new place: compressed bytes are encrypted for the new position,
      bytes of unknown kinds must not move. */
  function Copied(z: Codec, file: bytes, e: Entry, cursor: nat): Option<bytes> {
    var raw := Stored(file, e);
    if raw == None || e.flags == 0 then raw
    else if e.flags == 1 then Some(Crypt(z.mask, Crypt(z.mask, raw.value, e.offset), cursor))
    else if cursor == e.offset then raw
    else None
  }

  datatype Placement = Placement(entry: Entry, payload: bytes, rebuilt: bool)

  /** An entry compressed from new content. */
  function Compressed(z: Codec, name: bytes, content: bytes, cursor: u32): Option<Placement> {
    var packed := z.deflate(content);
    if |content| > LIMIT || |packed| > LIMIT then None
    else Some(Placement(Entry(cursor, |content|, |packed|, 1, name), Crypt(z.mask, packed, cursor), true))
  }

  function Rebuilt(z: Codec, e: Entry, content: bytes, cursor: u32): Option<Placement> {
    if e.flags == 1 then Compressed(z, e.name, content, cursor)
    else if e.flags > 1 || |content| > LIMIT then None
    else Some(Placement(e.(offset := cursor, size := |content|, stored := |content|), content, true))
  }

  function Unbounded(z: Codec, file: bytes, e: Entry, disk: Option<bytes>, cursor: u32): Option<Placement> {
    var same := if disk == None then Some(true) else Matches(z, file, e, disk.value);
    if same == None then None
    else if !same.value then Rebuilt(z, e, disk.value, cursor)
    else
      var payload := Copied(z, file, e, cursor);
      if payload == None then None else Some(Placement(e.(offset := cursor), payload.value, false))
  }

  /** One template entry at the cursor; a directory takes no room. */
  function Placed(z: Codec, file: bytes, e: Entry, disk: Option<bytes>, cursor: u32): Option<Placement> {
    if IsDirectory(e) then Some(Placement(e.(offset := cursor, size := 0), [], false))
    else
      var p := Unbounded(z, file, e, disk, cursor);
      if p == None || cursor + StoredSize(p.value.entry) > LIMIT then None else p
  }

  /** An archive under construction: the bytes written, the entries so far and how many were rebuilt. */
  datatype Layout = Layout(out: bytes, entries: seq<Entry>, rebuilt: nat)

  const EMPTY_LAYOUT := Layout(MAGIC, [], 0)

  function After(l: Layout, p: Placement): Layout {
    Layout(l.out + p.payload, l.entries + [p.entry], l.rebuilt + if p.rebuilt then 1 else 0)
  }

  function PlaceAll(z: Codec, file: bytes, entries: seq<Entry>, disk: Disk): Option<Layout> {
    if entries == [] then Some(EMPTY_LAYOUT)
    else
      var e := entries[|entries| - 1];
      var before := PlaceAll(z, file, entries[..|entries| - 1], disk);
      if before == None || |before.value.out| > LIMIT then None
      else
        var p := Placed(z, file, e, disk(e.name), |before.value.out|);
        if p == None then None else Some(After(before.value, p.value))
  }

  function DropSeparators(path: bytes): bytes {
    if path != [] && IsSeparator(path[0]) then DropSeparators(path[1..]) else path
  }

  /** The name a new path gets: no leading separators, forward slashes. */
  function Normalized(path: bytes): bytes {
    var p := DropSeparators(path);
    seq(|p|, i requires 0 <= i < |p| => if p[i] == BACKSLASH then SLASH else p[i])
  }

  /** A new file behind what is there; its name must be new and the file must exist. */
  function Added(z: Codec, l: Layout, path: bytes, disk: Disk): Option<Layout> {
    var content := disk(path);
    if (exists e <- l.entries :: e.name == Normalized(path)) || content == None || |l.out| > LIMIT then None
    else
      var p := Compressed(z, Normalized(path), content.value, |l.out|);
      if p == None || |l.out| + StoredSize(p.value.entry) > LIMIT then None else Some(After(l, p.value))
  }

  function AddAll(z: Codec, l: Layout, paths: seq<bytes>, disk: Disk): Option<Layout> {
    if paths == [] then Some(l)
    else
      var before := AddAll(z, l, paths[..|paths| - 1], disk);
      if before == None then None else Added(z, before.value, paths[|paths| - 1], disk)
  }

  datatype Mode = Replace | Append | Overlay

  function LayOut(z: Codec, file: bytes, pack: Pack, disk: Disk, mode: Mode, paths: seq<bytes>): Option<Layout> {
    if mode != Replace && paths == [] then None
    else if mode == Overlay then AddAll(z, EMPTY_LAYOUT, paths, disk)
    else
      var kept := PlaceAll(z, file, pack.entries, disk);
      if kept == None || mode == Replace then kept else AddAll(z, kept.value, paths, disk)
  }

  /** When nothing changed, the template is copied as it is. */
  predicate CopiedVerbatim(pack: Pack, mode: Mode, l: Layout, hash: u16) {
    mode == Replace && l.rebuilt == 0 && (!pack.header.secondary || hash == pack.hash)
  }

  function Repacked(z: Codec, file: bytes, pack: Pack, disk: Disk, mode: Mode, paths: seq<bytes>,
                    hash: u16): Option<bytes> {
    var l := LayOut(z, file, pack, disk, mode, paths);
    if l == None then None
    else if CopiedVerbatim(pack, mode, l.value, hash) then Some(file)
    else Closed(z, l.value.out, pack.header, l.value.entries, hash)
  }

  // ---------------------------------------------------------------- what an entry of the new archive carries

  /** Where an entry of the new archive comes from. */
  datatype Slot = Kept(entry: Entry) | New(path: bytes)

  function KeptSlots(entries: seq<Entry>): seq<Slot> {
    seq(|entries|, i requires 0 <= i < |entries| => Kept(entries[i]))
  }

  function NewSlots(paths: seq<bytes>): seq<Slot> { seq(|paths|, i requires 0 <= i < |paths| => New(paths[i])) }

  function Slots(pack: Pack, mode: Mode, paths: seq<bytes>): seq<Slot> {
    match mode
    case Replace => KeptSlots(pack.entries)
    case Append => KeptSlots(pack.entries) + NewSlots(paths)
    case Overlay => NewSlots(paths)
  }

  predicate HasContent(e: Entry) { !IsDirectory(e) && e.flags <= 1 }

  /** The file on disk if there is one, and what the template holds otherwise. */
  function Wanted(z: Codec, file: bytes, disk: Disk, s: Slot): Option<bytes> {
    match s
    case Kept(e) => if disk(e.name).Some? then disk(e.name) else Content(z, file, e)
    case New(path) => disk(path)
  }

  predicate Inside(e: Entry, n: nat) { StoredSize(e) == 0 || e.offset + StoredSize(e) <= n }

  /** The file on disk is not what the template has. */
  predicate Changed(z: Codec, file: bytes, disk: Disk, e: Entry) {
    disk(e.name).Some? && (|disk(e.name).value| != e.size || Content(z, file, e) != disk(e.name))
  }

  /** The directory table tells the size of the content and the room it takes in the archive. */
  predicate IsSized(z: Codec, file: bytes, disk: Disk, e: Entry, s: Slot) {
    match s
    case New(path) =>
      disk(path).Some? && e.size == |disk(path).value| && e.stored == |z.deflate(disk(path).value)|
    case Kept(t) =>
      if IsDirectory(t) then e.stored == t.stored && (e.size == 0 || e == t)
      else if !Changed(z, file, disk, t) then e.size == t.size && e.stored == t.stored
      else
        var content := disk(t.name).value;
        e.size == |content| && e.stored == if t.flags == 1 then |z.deflate(content)| else |content|
  }

  function SlotName(s: Slot): bytes { match s case Kept(t) => t.name case New(path) => Normalized(path) }

  /** An entry has the name, flags and sizes of its slot, and its payload decodes to what is wanted there. One of an
      unknown kind stays where it was with the bytes it had. */
  predicate Carries(z: Codec, file: bytes, disk: Disk, out: bytes, e: Entry, s: Slot) {
    && e.name == SlotName(s)
    && e.flags == (match s case Kept(t) => t.flags case New(_) => 1)
    && IsSized(z, file, disk, e, s)
    && (s.New? || HasContent(s.entry) ==> Inside(e, |out|) && Content(z, out, e) == Wanted(z, file, disk, s))
    && (s.Kept? && !IsDirectory(s.entry) && s.entry.flags > 1 ==>
          e == s.entry && Inside(e, |out|) && Stored(out, e) == Stored(file, e))
  }

  ghost predicate AllCarry(z: Codec, file: bytes, disk: Disk, out: bytes, entries: seq<Entry>, slots: seq<Slot>) {
    |entries| == |slots| && forall i :: 0 <= i < |entries| ==> Carries(z, file, disk, out, entries[i], slots[i])
  }

  /** Bytes written later do not change what an entry holds. */
  lemma ContentStays(z: Codec, out: bytes, more: bytes, e: Entry)
    requires Inside(e, |out|)
    ensures Inside(e, |out + more|) && Stored(out + more, e) == Stored(out, e)
    ensures Content(z, out + more, e) == Content(z, out, e)
  {
    if StoredSize(e) > 0 {
      assert (out + more)[e.offset..e.offset + StoredSize(e)] == out[e.offset..e.offset + StoredSize(e)];
    }
  }

  lemma CarriesStays(z: Codec, file: bytes, disk: Disk, out: bytes, more: bytes, e: Entry, s: Slot)
    requires Carries(z, file, disk, out, e, s)
    ensures Carries(z, file, disk, out + more, e, s)
  {
    if s.New? || !IsDirectory(s.entry) { ContentStays(z, out, more, e); }
  }

  /** What was written at the cursor is what the entry there stores. */
  lemma StoredAtCursor(out: bytes, payload: bytes, e: Entry)
    requires e.offset == |out| && StoredSize(e) == |payload|
    ensures Inside(e, |out + payload|) && Stored(out + payload, e) == Some(payload)
  {
    assert (out + payload)[|out|..|out| + |payload|] == payload;
  }

  lemma CompressedCarries(z: Codec, out: bytes, name: bytes, content: bytes)
    requires ValidCodec(z) && |out| <= LIMIT && Compressed(z, name, content, |out|).Some?
    ensures var p := Compressed(z, name, content, |out|).value;
            Inside(p.entry, |out + p.payload|) && Content(z, out + p.payload, p.entry) == Some(content)
            && StoredSize(p.entry) == |p.payload|
  {
    var p := Compressed(z, name, content, |out|).value;
    StoredAtCursor(out, p.payload, p.entry);
    CryptUndo(z.mask, z.deflate(content), |out|);
  }

  /** A compressed payload moved to another position and encrypted for it decodes to the same content. */
  lemma CopiedCarries(z: Codec, file: bytes, e: Entry, out: bytes)
    requires SelfInverse(z.mask) && e.flags <= 1 && |out| <= LIMIT && Copied(z, file, e, |out|).Some?
    ensures var moved, payload := e.(offset := |out|), Copied(z, file, e, |out|).value;
            Inside(moved, |out + payload|) && Content(z, out + payload, moved) == Content(z, file, e)
            && StoredSize(moved) == |payload|
  {
    var moved, payload := e.(offset := |out|), Copied(z, file, e, |out|).value;
    StoredAtCursor(out, payload, moved);
    if e.flags == 1 { CryptUndo(z.mask, Crypt(z.mask, Stored(file, e).value, e.offset), |out|); }
  }

  lemma UnboundedCarries(z: Codec, file: bytes, e: Entry, disk: Disk, out: bytes)
    requires ValidCodec(z) && HasContent(e) && |out| <= LIMIT && Unbounded(z, file, e, disk(e.name), |out|).Some?
    ensures var p := Unbounded(z, file, e, disk(e.name), |out|).value;
            Carries(z, file, disk, out + p.payload, p.entry, Kept(e)) && StoredSize(p.entry) == |p.payload|
  {
    var p := Unbounded(z, file, e, disk(e.name), |out|).value;
    if !p.rebuilt {
      CopiedCarries(z, file, e, out);
    } else if e.flags == 1 {
      CompressedCarries(z, out, e.name, disk(e.name).value);
    } else {
      StoredAtCursor(out, p.payload, p.entry);
    }
  }

  lemma PlacedCarries(z: Codec, file: bytes, e: Entry, disk: Disk, out: bytes)
    requires ValidCodec(z) && |out| <= LIMIT && Placed(z, file, e, disk(e.name), |out|).Some?
    ensures var p := Placed(z, file, e, disk(e.name), |out|).value;
            Carries(z, file, disk, out + p.payload, p.entry, Kept(e))
  {
    if HasContent(e) { UnboundedCarries(z, file, e, disk, out); }
    else if !IsDirectory(e) { StoredAtCursor(out, Stored(file, e).value, e); }
  }

  lemma AfterCarries(z: Codec, file: bytes, disk: Disk, l: Layout, p: Placement, slots: seq<Slot>, s: Slot)
    requires AllCarry(z, file, disk, l.out, l.entries, slots) && Carries(z, file, disk, l.out + p.payload, p.entry, s)
    ensures AllCarry(z, file, disk, After(l, p).out, After(l, p).entries, slots + [s])
  {
    forall i | 0 <= i < |slots| ensures Carries(z, file, disk, l.out + p.payload, l.entries[i], slots[i]) {
      CarriesStays(z, file, disk, l.out, p.payload, l.entries[i], slots[i]);
    }
  }

  lemma {:induction false} PlaceAllCarries(z: Codec, file: bytes, entries: seq<Entry>, disk: Disk)
    requires ValidCodec(z) && PlaceAll(z, file, entries, disk).Some?
    ensures var l := PlaceAll(z, file, entries, disk).value;
            MAGIC <= l.out && AllCarry(z, file, disk, l.out, l.entries, KeptSlots(entries))
  {
    if entries != [] {
      var n := |entries| - 1;
      PlaceAllCarries(z, file, entries[..n], disk);
      var before := PlaceAll(z, file, entries[..n], disk).value;
      var p := Placed(z, file, entries[n], disk(entries[n].name), |before.out|).value;
      PlacedCarries(z, file, entries[n], disk, before.out);
      AfterCarries(z, file, disk, before, p, KeptSlots(entries[..n]), Kept(entries[n]));
      assert KeptSlots(entries) == KeptSlots(entries[..n]) + [Kept(entries[n])];
    }
  }

  lemma AddedCarries(z: Codec, file: bytes, before: Layout, slots: seq<Slot>, path: bytes, disk: Disk)
    requires ValidCodec(z) && MAGIC <= before.out && AllCarry(z, file, disk, before.out, before.entries, slots)
    requires Added(z, before, path, disk).Some?
    ensures var r := Added(z, before, path, disk).value;
            MAGIC <= r.out && AllCarry(z, file, disk, r.out, r.entries, slots + [New(path)])
  {
    var content := disk(path).value;
    CompressedCarries(z, before.out, Normalized(path), content);
    AfterCarries(z, file, disk, before, Compressed(z, Normalized(path), content, |before.out|).value, slots, New(path));
  }

  lemma {:induction false} AddAllCarries(z: Codec, file: bytes, l: Layout, slots: seq<Slot>, paths: seq<bytes>,
                                         disk: Disk)
    requires ValidCodec(z) && MAGIC <= l.out && AllCarry(z, file, disk, l.out, l.entries, slots)
    requires AddAll(z, l, paths, disk).Some?
    ensures var r := AddAll(z, l, paths, disk).value;
            MAGIC <= r.out && AllCarry(z, file, disk, r.out, r.entries, slots + NewSlots(paths))
  {
    if paths == [] {
      assert slots + NewSlots(paths) == slots;
    } else {
      var n := |paths| - 1;
      AddAllCarries(z, file, l, slots, paths[..n], disk);
      var before := AddAll(z, l, paths[..n], disk).value;
      AddedCarries(z, file, before, slots + NewSlots(paths[..n]), paths[n], disk);
      assert NewSlots(paths) == NewSlots(paths[..n]) + [New(paths[n])];
      Regroup(slots, NewSlots(paths[..n]), [New(paths[n])]);
    }
  }

  lemma LayOutCarries(z: Codec, file: bytes, pack: Pack, disk: Disk, mode: Mode, paths: seq<bytes>)
    requires ValidCodec(z) && LayOut(z, file, pack, disk, mode, paths).Some?
    ensures var l := LayOut(z, file, pack, disk, mode, paths).value;
            MAGIC <= l.out && AllCarry(z, file, disk, l.out, l.entries, Slots(pack, mode, paths))
  {
    if mode == Overlay {
      AddAllCarries(z, file, EMPTY_LAYOUT, [], paths, disk);
      assert [] + NewSlots(paths) == NewSlots(paths);
    } else {
      PlaceAllCarries(z, file, pack.entries, disk);
      if mode == Append {
        AddAllCarries(z, file, PlaceAll(z, file, pack.entries, disk).value, KeptSlots(pack.entries), paths, disk);
      }
    }
  }

  // ---------------------------------------------------------------- an unchanged template

  lemma UnchangedCarries(z: Codec, file: bytes, e: Entry, disk: Disk, cursor: u32)
    requires Placed(z, file, e, disk(e.name), cursor).Some? && !Placed(z, file, e, disk(e.name), cursor).value.rebuilt
    ensures Carries(z, file, disk, file, e, Kept(e))
  {
  }

  /** If no entry was rebuilt, every file on disk is what the template already holds. */
  lemma {:induction false} UnchangedTemplateCarries(z: Codec, file: bytes, entries: seq<Entry>, disk: Disk)
    requires PlaceAll(z, file, entries, disk).Some? && PlaceAll(z, file, entries, disk).value.rebuilt == 0
    ensures AllCarry(z, file, disk, file, entries, KeptSlots(entries))
  {
    if entries != [] {
      var n := |entries| - 1;
      var before := PlaceAll(z, file, entries[..n], disk).value;
      UnchangedTemplateCarries(z, file, entries[..n], disk);
      UnchangedCarries(z, file, entries[n], disk, |before.out|);
      OneMoreCarries(z, file, disk, entries[..n], KeptSlots(entries[..n]), entries[n], Kept(entries[n]));
      assert entries == entries[..n] + [entries[n]] &&
          KeptSlots(entries) == KeptSlots(entries[..n]) + [Kept(entries[n])];
    }
  }

  lemma OneMoreCarries(z: Codec, file: bytes, disk: Disk, entries: seq<Entry>, slots: seq<Slot>, e: Entry, s: Slot)
    requires AllCarry(z, file, disk, file, entries, slots) && Carries(z, file, disk, file, e, s)
    ensures AllCarry(z, file, disk, file, entries + [e], slots + [s])
  {
  }

  // ---------------------------------------------------------------- the whole run

  lemma {:induction false} ParsedNamesEnd(buf: bytes)
    requires ParseTable(buf).Some?
    ensures NamesEnd(ParseTable(buf).value)
    decreases |buf|
  {
    if |buf| >= 13 {
      var n := NameLength(buf[13..]);
      ParsedNamesEnd(buf[13 + n + 1..]);
      assert 0 !in EntryAt(buf).name;
    }
  }

  lemma ParsedIsReadable(z: Codec, file: bytes)
    requires ParsePack(z, file).Some?
    ensures var p := ParsePack(z, file).value;
            Readable(p.header, |p.entries|) && (!p.header.secondary ==> p.hash == 0)
  {
  }

  lemma ParsedPack(z: Codec, file: bytes)
    requires ParsePack(z, file).Some?
    ensures var p := ParsePack(z, file).value; ValidHeader(p.header) && NamesEnd(p.entries)
  {
    var d := DoubleWordAt(Decrypted(z, file, |file| - 4, 4), 0);
    var plain := z.inflate(Decrypted(z, file, d, |file| - 4 - d));
    if plain.Some? && ParseTable(plain.value).Some? { ParsedNamesEnd(plain.value); }
  }

  lemma {:induction false} DropsSeparators(path: bytes) returns (cut: nat)
    ensures cut <= |path| && DropSeparators(path) == path[cut..]
    ensures (forall i :: 0 <= i < cut ==> IsSeparator(path[i])) && (cut < |path| ==> !IsSeparator(path[cut]))
  {
    cut := 0;
    if path != [] && IsSeparator(path[0]) {
      cut := DropsSeparators(path[1..]);
      assert path[1..][cut..] == path[cut + 1..];
      forall i | 0 <= i < cut + 1 ensures IsSeparator(path[i]) {
        if i > 0 { assert path[i] == path[1..][i - 1]; }
      }
      cut := cut + 1;
    }
  }

  /** The name of a new entry is its path without the separators in front and with forward slashes. */
  lemma NormalizedIs(path: bytes) returns (cut: nat)
    ensures cut <= |path| && |Normalized(path)| == |path| - cut
    ensures (forall i :: 0 <= i < cut ==> IsSeparator(path[i])) && (cut < |path| ==> !IsSeparator(path[cut]))
    ensures forall i :: cut <= i < |path| ==>
              Normalized(path)[i - cut] == if IsSeparator(path[i]) then SLASH else path[i]
  {
    cut := DropsSeparators(path);
  }

  lemma NormalizedHasNoZero(path: bytes)
    requires 0 !in path
    ensures 0 !in Normalized(path)
  {
    var cut := NormalizedIs(path);
    forall i | 0 <= i < |Normalized(path)| ensures Normalized(path)[i] != 0 { assert path[cut + i] in path; }
  }

  lemma CarriedNamesEnd(z: Codec, file: bytes, disk: Disk, out: bytes, entries: seq<Entry>, pack: Pack, mode: Mode,
                        paths: seq<bytes>)
    requires AllCarry(z, file, disk, out, entries, Slots(pack, mode, paths)) && NamesEnd(pack.entries)
    requires forall i :: 0 <= i < |paths| ==> 0 !in paths[i]
    ensures NamesEnd(entries)
  {
    forall i | 0 <= i < |entries| ensures 0 !in entries[i].name {
      var s := Slots(pack, mode, paths)[i];
      assert Carries(z, file, disk, out, entries[i], s);
      if s.New? { NormalizedHasNoZero(s.path); }
    }
  }

  /** The last header field is the number of entries, or the size of their table in 32 bits. */
  predicate IsSummed(p: Pack) {
    if p.header.secondary then p.value == Low32(|Table(p.entries)|) else p.value as int == |p.entries|
  }

  /** The archive a repack writes reads back, with the header of the template and the hash, as exactly the entries of
      the template and the new paths, in order, with their sizes, and every payload of theirs decodes to what was
      wanted. */
  lemma RepackedArchive(z: Codec, file: bytes, pack: Pack, disk: Disk, mode: Mode, paths: seq<bytes>, hash: u16,
                        output: bytes)
    requires ValidCodec(z) && ParsePack(z, file) == Some(pack) && |pack.entries| + |paths| < WRAP
    requires forall i :: 0 <= i < |paths| ==> 0 !in paths[i]
    requires Repacked(z, file, pack, disk, mode, paths, hash) == Some(output)
    ensures var slots, after := Slots(pack, mode, paths), ParsePack(z, output);
            && (after.Some? <==> Readable(pack.header, |slots|))
            && (after.Some? ==> after.value.header == pack.header &&
                                after.value.hash == (if pack.header.secondary then hash else 0) &&
                                (output == file || IsSummed(after.value)) &&
                                AllCarry(z, file, disk, output, after.value.entries, slots))
  {
    var l := LayOut(z, file, pack, disk, mode, paths).value;
    LayOutCarries(z, file, pack, disk, mode, paths);
    ParsedPack(z, file);
    if CopiedVerbatim(pack, mode, l, hash) {
      UnchangedTemplateCarries(z, file, pack.entries, disk);
      ParsedIsReadable(z, file);
    } else {
      ClosedCarries(z, file, pack, disk, mode, paths, hash, l, output);
    }
  }

  lemma ClosedCarries(z: Codec, file: bytes, pack: Pack, disk: Disk, mode: Mode, paths: seq<bytes>, hash: u16,
                      l: Layout, output: bytes)
    requires ValidCodec(z) && NamesEnd(pack.entries) && ValidHeader(pack.header) && |pack.entries| + |paths| < WRAP
    requires forall i :: 0 <= i < |paths| ==> 0 !in paths[i]
    requires MAGIC <= l.out && AllCarry(z, file, disk, l.out, l.entries, Slots(pack, mode, paths))
    requires Closed(z, l.out, pack.header, l.entries, hash) == Some(output)
    ensures var slots, after := Slots(pack, mode, paths), ParsePack(z, output);
            && (after.Some? <==> Readable(pack.header, |slots|))
            && (after.Some? ==> after.value.header == pack.header &&
                                after.value.hash == (if pack.header.secondary then hash else 0) &&
                                (output == file || IsSummed(after.value)) &&
                                AllCarry(z, file, disk, output, after.value.entries, slots))
  {
    var slots := Slots(pack, mode, paths);
    CarriedNamesEnd(z, file, disk, l.out, l.entries, pack, mode, paths);
    ArchiveReadsBack(z, l.out, pack.header, l.entries, hash, output, |l.out| + HeaderSize(pack.header));
    assert l.out <= output && output == l.out + output[|l.out|..];
    forall i | 0 <= i < |slots| ensures Carries(z, file, disk, output, l.entries[i], slots[i]) {
      CarriesStays(z, file, disk, l.out, output[|l.out|..], l.entries[i], slots[i]);
    }
  }

  // ---------------------------------------------------------------- when a repack succeeds

  /** A slot whose payload is made anew. */
  predicate Rewrites(z: Codec, file: bytes, disk: Disk, s: Slot) {
    s.New? || (!IsDirectory(s.entry) && Changed(z, file, disk, s.entry))
  }

  /** How many bytes the payload of a slot takes. */
  function Room(z: Codec, file: bytes, disk: Disk, s: Slot): nat {
    match s
    case New(path) => if disk(path).Some? then |z.deflate(disk(path).value)| else 0
    case Kept(e) =>
      if IsDirectory(e) then 0
      else if !Changed(z, file, disk, e) then StoredSize(e)
      else if e.flags == 1 then |z.deflate(disk(e.name).value)|
      else |disk(e.name).value|
  }

  /** Where the payload behind these slots begins. */
  function End(z: Codec, file: bytes, disk: Disk, slots: seq<Slot>): nat {
    if slots == [] then 4
    else
      var n := |slots| - 1;
      End(z, file, disk, slots[..n]) + Room(z, file, disk, slots[n])
  }

  /** A template entry can be placed: what is to be kept of it is there, and what is to be compared can be decoded. An
      entry of an unknown kind cannot be compared, and must stay where it was. */
  predicate CanKeep(z: Codec, file: bytes, disk: Disk, e: Entry, begin: nat) {
    IsDirectory(e) ||
    (&& begin + Room(z, file, disk, Kept(e)) <= LIMIT
     && if disk(e.name) == None then Stored(file, e).Some? && (e.flags <= 1 || begin == e.offset)
        else
          && e.flags <= 1 && |disk(e.name).value| <= LIMIT
          && (|disk(e.name).value| == e.size ==> Content(z, file, e).Some?))
  }

  /** A new file can be added: it exists, fits, and nothing before it has its name. */
  ghost predicate CanAdd(z: Codec, disk: Disk, path: bytes, begin: nat, before: seq<Slot>) {
    && disk(path).Some? && |disk(path).value| <= LIMIT && begin + |z.deflate(disk(path).value)| <= LIMIT
    && forall i :: 0 <= i < |before| ==> SlotName(before[i]) != Normalized(path)
  }

  ghost predicate CanPlace(z: Codec, file: bytes, disk: Disk, slots: seq<Slot>, i: nat)
    requires i < |slots|
  {
    var begin := End(z, file, disk, slots[..i]);
    match slots[i]
    case Kept(e) => CanKeep(z, file, disk, e, begin)
    case New(path) => CanAdd(z, disk, path, begin, slots[..i])
  }

  ghost predicate AllFit(z: Codec, file: bytes, disk: Disk, slots: seq<Slot>) {
    forall i :: 0 <= i < |slots| ==> CanPlace(z, file, disk, slots, i)
  }

  predicate AnyRewrites(z: Codec, file: bytes, disk: Disk, slots: seq<Slot>) {
    exists i :: 0 <= i < |slots| && Rewrites(z, file, disk, slots[i])
  }

  lemma OneMoreFits(z: Codec, file: bytes, disk: Disk, slots: seq<Slot>, s: Slot)
    ensures var all := slots + [s];
            && (AllFit(z, file, disk, all) <==> AllFit(z, file, disk, slots) && CanPlace(z, file, disk, all, |slots|))
            && End(z, file, disk, all) == End(z, file, disk, slots) + Room(z, file, disk, s)
            && (AnyRewrites(z, file, disk, all) <==> AnyRewrites(z, file, disk, slots) || Rewrites(z, file, disk, s))
            && all[..|slots|] == slots
  {
    var all := slots + [s];
    assert all[..|slots|] == slots;
    forall i | 0 <= i < |slots| ensures CanPlace(z, file, disk, all, i) <==> CanPlace(z, file, disk, slots, i) {
      assert all[..i] == slots[..i] && all[i] == slots[i];
    }
    if AllFit(z, file, disk, all) {
      forall i | 0 <= i < |slots| ensures CanPlace(z, file, disk, slots, i) { assert CanPlace(z, file, disk, all, i); }
    }
    if AnyRewrites(z, file, disk, slots) {
      var i :| 0 <= i < |slots| && Rewrites(z, file, disk, slots[i]);
      assert all[i] == slots[i];
    }
    assert all[|slots|] == s;
  }

  lemma PlacedExactlyWhen(z: Codec, file: bytes, e: Entry, disk: Disk, cursor: u32)
    ensures var p := Placed(z, file, e, disk(e.name), cursor);
            && (p.Some? <==> CanKeep(z, file, disk, e, cursor))
            && (p.Some? ==> |p.value.payload| == Room(z, file, disk, Kept(e)) &&
                            p.value.rebuilt == Rewrites(z, file, disk, Kept(e)))
  {
  }

  /** What a layout comes to, exactly when all its slots fit. */
  ghost predicate LaidOut(z: Codec, file: bytes, disk: Disk, l: Option<Layout>, slots: seq<Slot>) {
    && (l.Some? <==> AllFit(z, file, disk, slots))
    && (l.Some? ==> |l.value.out| == End(z, file, disk, slots) <= LIMIT &&
                    (l.value.rebuilt > 0 <==> AnyRewrites(z, file, disk, slots)))
  }

  lemma {:induction false} PlaceAllExactlyWhen(z: Codec, file: bytes, entries: seq<Entry>, disk: Disk)
    ensures LaidOut(z, file, disk, PlaceAll(z, file, entries, disk), KeptSlots(entries))
  {
    if entries != [] {
      var n := |entries| - 1;
      var slots, before := KeptSlots(entries[..n]), PlaceAll(z, file, entries[..n], disk);
      PlaceAllExactlyWhen(z, file, entries[..n], disk);
      assert KeptSlots(entries) == slots + [Kept(entries[n])];
      OneMoreFits(z, file, disk, slots, Kept(entries[n]));
      if before.Some? { PlacedExactlyWhen(z, file, entries[n], disk, |before.value.out|); }
    }
  }

  lemma NamesOfSlots(z: Codec, file: bytes, disk: Disk, l: Layout, slots: seq<Slot>, name: bytes)
    requires AllCarry(z, file, disk, l.out, l.entries, slots)
    ensures (exists e <- l.entries :: e.name == name) <==> exists i :: 0 <= i < |slots| && SlotName(slots[i]) == name
  {
    forall i | 0 <= i < |slots| ensures l.entries[i].name == SlotName(slots[i]) {
      assert Carries(z, file, disk, l.out, l.entries[i], slots[i]);
    }
    if i :| 0 <= i < |slots| && SlotName(slots[i]) == name { assert l.entries[i] in l.entries; }
  }

  lemma {:induction false} AddAllExactlyWhen(z: Codec, file: bytes, l: Layout, slots: seq<Slot>, paths: seq<bytes>,
                                             disk: Disk)
    requires ValidCodec(z) && MAGIC <= l.out && AllCarry(z, file, disk, l.out, l.entries, slots)
    requires LaidOut(z, file, disk, Some(l), slots)
    ensures LaidOut(z, file, disk, AddAll(z, l, paths, disk), slots + NewSlots(paths))
  {
    if paths == [] {
      assert slots + NewSlots(paths) == slots;
    } else {
      var n := |paths| - 1;
      var earlier, before := slots + NewSlots(paths[..n]), AddAll(z, l, paths[..n], disk);
      AddAllExactlyWhen(z, file, l, slots, paths[..n], disk);
      assert NewSlots(paths) == NewSlots(paths[..n]) + [New(paths[n])];
      Regroup(slots, NewSlots(paths[..n]), [New(paths[n])]);
      if before.Some? {
        AddAllCarries(z, file, l, slots, paths[..n], disk);
        AddedExactlyWhen(z, file, before.value, earlier, paths[n], disk);
      } else {
        OneMoreFits(z, file, disk, earlier, New(paths[n]));
      }
    }
  }

  lemma AddedExactlyWhen(z: Codec, file: bytes, before: Layout, slots: seq<Slot>, path: bytes, disk: Disk)
    requires AllCarry(z, file, disk, before.out, before.entries, slots) && LaidOut(z, file, disk, Some(before), slots)
    ensures LaidOut(z, file, disk, Added(z, before, path, disk), slots + [New(path)])
  {
    OneMoreFits(z, file, disk, slots, New(path));
    NamesOfSlots(z, file, disk, before, slots, Normalized(path));
  }

  lemma LayOutExactlyWhen(z: Codec, file: bytes, pack: Pack, disk: Disk, mode: Mode, paths: seq<bytes>)
    requires ValidCodec(z) && (mode == Replace || paths != [])
    ensures LaidOut(z, file, disk, LayOut(z, file, pack, disk, mode, paths), Slots(pack, mode, paths))
  {
    if mode == Overlay {
      AddAllExactlyWhen(z, file, EMPTY_LAYOUT, [], paths, disk);
      assert [] + NewSlots(paths) == NewSlots(paths);
    } else {
      var kept := PlaceAll(z, file, pack.entries, disk);
      PlaceAllExactlyWhen(z, file, pack.entries, disk);
      PlaceAllCarriesIf(z, file, pack.entries, disk);
      if mode == Append {
        if kept.Some? { AddAllExactlyWhen(z, file, kept.value, KeptSlots(pack.entries), paths, disk); }
        else { FitsNotFurther(z, file, disk, KeptSlots(pack.entries), NewSlots(paths)); }
      }
    }
  }

  lemma PlaceAllCarriesIf(z: Codec, file: bytes, entries: seq<Entry>, disk: Disk)
    requires ValidCodec(z)
    ensures var l := PlaceAll(z, file, entries, disk);
            l.Some? ==>
              MAGIC <= l.value.out && AllCarry(z, file, disk, l.value.out, l.value.entries, KeptSlots(entries))
  {
    if PlaceAll(z, file, entries, disk).Some? { PlaceAllCarries(z, file, entries, disk); }
  }

  lemma FitsNotFurther(z: Codec, file: bytes, disk: Disk, slots: seq<Slot>, more: seq<Slot>)
    requires !AllFit(z, file, disk, slots)
    ensures !AllFit(z, file, disk, slots + more)
  {
    var i :| 0 <= i < |slots| && !CanPlace(z, file, disk, slots, i);
    assert (slots + more)[..i] == slots[..i] && (slots + more)[i] == slots[i];
    assert !CanPlace(z, file, disk, slots + more, i);
  }

  lemma LayOutIs(z: Codec, file: bytes, pack: Pack, disk: Disk, mode: Mode, paths: seq<bytes>)
    returns (fits: bool, body: bytes, entries: seq<Entry>, rebuilt: nat)
    requires ValidCodec(z)
    ensures LayOut(z, file, pack, disk, mode, paths) == if fits then Some(Layout(body, entries, rebuilt)) else None
    ensures fits <==> (mode == Replace || paths != []) && AllFit(z, file, disk, Slots(pack, mode, paths))
    ensures fits ==> |body| == End(z, file, disk, Slots(pack, mode, paths)) &&
                     AllCarry(z, file, disk, body, entries, Slots(pack, mode, paths))
    ensures fits ==> (rebuilt > 0 <==> AnyRewrites(z, file, disk, Slots(pack, mode, paths)))
  {
    var l := LayOut(z, file, pack, disk, mode, paths);
    fits, body, entries, rebuilt := false, [], [], 0;
    if mode == Replace || paths != [] {
      LayOutExactlyWhen(z, file, pack, disk, mode, paths);
      if l.Some? {
        LayOutCarries(z, file, pack, disk, mode, paths);
        fits, body, entries, rebuilt := true, l.value.out, l.value.entries, l.value.rebuilt;
      }
    }
  }

  lemma ClosedExactlyWhen(z: Codec, out: bytes, h: Header, entries: seq<Entry>, hash: u16)
    ensures var size, file := |out| + HeaderSize(h) + |z.deflate(Table(entries))| + 4, Closed(z, out, h, entries, hash);
            && (file.Some? <==> size <= LIMIT) && (file.Some? ==> |file.value| == size && out <= file.value)
  {
  }

  lemma WrittenFrom(z: Codec, file: bytes, pack: Pack, disk: Disk, mode: Mode, paths: seq<bytes>, hash: u16, l: Layout)
    returns (untouched: bool, output: Option<bytes>)
    requires LayOut(z, file, pack, disk, mode, paths) == Some(l)
    ensures untouched <==> mode == Replace && l.rebuilt == 0 && (!pack.header.secondary || hash == pack.hash)
    ensures output == Repacked(z, file, pack, disk, mode, paths, hash)
    ensures var size := |l.out| + HeaderSize(pack.header) + |z.deflate(Table(l.entries))| + 4;
            && (output.Some? <==> untouched || size <= LIMIT)
            && (untouched ==> output == Some(file))
            && (output.Some? && !untouched ==> |output.value| == size && l.out <= output.value)
  {
    untouched, output := CopiedVerbatim(pack, mode, l, hash), Repacked(z, file, pack, disk, mode, paths, hash);
    ClosedExactlyWhen(z, l.out, pack.header, l.entries, hash);
  }

  /** A repack writes an archive exactly when there is something to do, every slot fits and the archive stays below
      four gigabytes; it begins with the payloads of its slots. If nothing is made anew and the hash is kept, it is
      the template itself. */
  lemma RepacksExactlyWhen(z: Codec, file: bytes, pack: Pack, disk: Disk, mode: Mode, paths: seq<bytes>, hash: u16)
    returns (fits: bool, untouched: bool, body: bytes, entries: seq<Entry>)
    requires ValidCodec(z)
    ensures fits <==> (mode == Replace || paths != []) && AllFit(z, file, disk, Slots(pack, mode, paths))
    ensures untouched <==> mode == Replace && !AnyRewrites(z, file, disk, KeptSlots(pack.entries)) &&
                           (!pack.header.secondary || hash == pack.hash)
    ensures fits ==> |body| == End(z, file, disk, Slots(pack, mode, paths)) &&
                     AllCarry(z, file, disk, body, entries, Slots(pack, mode, paths))
    ensures var output := Repacked(z, file, pack, disk, mode, paths, hash);
            var size := |body| + HeaderSize(pack.header) + |z.deflate(Table(entries))| + 4;
            && (output.Some? <==> fits && (untouched || size <= LIMIT))
            && (output.Some? && untouched ==> output == Some(file))
            && (output.Some? && !untouched ==> |output.value| == size && body <= output.value)
  {
    var rebuilt;
    fits, body, entries, rebuilt := LayOutIs(z, file, pack, disk, mode, paths);
    untouched := mode == Replace && !AnyRewrites(z, file, disk, KeptSlots(pack.entries)) &&
                 (!pack.header.secondary || hash == pack.hash);
    if fits {
      var same, output := WrittenFrom(z, file, pack, disk, mode, paths, hash, Layout(body, entries, rebuilt));
    }
  }
}
