/** The ZIP records of APPNOTE.TXT sections 4.3.7, 4.3.12 and 4.3.16 that the writer emits, and a reader for them. */
module Zip {
  import opened Bytes
  import opened Word32
  import opened Crc32

  const LOCAL_MAGIC: nat := 0x0403_4b50
  const DIRECTORY_MAGIC: nat := 0x0201_4b50
  const END_MAGIC: nat := 0x0605_4b50
  const VERSION: nat := 45
  const LOCAL_HEADER_SIZE: nat := 30
  const CENTRAL_DIRECTORY_ENTRY_SIZE: nat := 46
  const END_OF_CENTRAL_DIRECTORY_SIZE: nat := 22

  /** What local header and directory entry of a file both say about it. */
  datatype Meta = Meta(
    name: bytes,
    compression: nat,
    crc: Word,
    compressedSize: nat,
    uncompressedSize: nat)

  datatype ZipEntry = ZipEntry(startOffset: nat, meta: Meta)

  predicate MetaFits(m: Meta) {
    |m.name| < U16_LIMIT && m.compression < U16_LIMIT && m.compressedSize < U32_LIMIT && m.uncompressedSize < U32_LIMIT
  }

  /** The fields that local header and directory entry share, in the same order: 4 + 4 + 12 + 4 bytes. */
  function CommonFields(m: Meta): (s: bytes)
    requires MetaFits(m)
    ensures |s| == 24
  {
    Le16(0) + Le16(m.compression) + Le16(0) + Le16(0) +
    LeBytes(m.crc) + Le32(m.compressedSize) + Le32(m.uncompressedSize) + Le16(|m.name|) + Le16(0)
  }

  function LocalHeader(m: Meta): (s: bytes)
    requires MetaFits(m)
    ensures |s| == LOCAL_HEADER_SIZE + |m.name|
  {
    Le32(LOCAL_MAGIC) + Le16(VERSION) + CommonFields(m) + m.name
  }

  function DirectoryEntry(e: ZipEntry): (s: bytes)
    requires MetaFits(e.meta) && e.startOffset < U32_LIMIT
    ensures |s| == CENTRAL_DIRECTORY_ENTRY_SIZE + |e.meta.name|
  {
    Le32(DIRECTORY_MAGIC) + Le16(VERSION) + Le16(VERSION) + CommonFields(e.meta) +
    (Le16(0) + Le16(0) + Le16(0) + Le32(0)) + Le32(e.startOffset) + e.meta.name
  }

  function EndRecord(count: nat, size: nat, offset: nat): (s: bytes)
    requires count < U16_LIMIT && size < U32_LIMIT && offset < U32_LIMIT
    ensures |s| == END_OF_CENTRAL_DIRECTORY_SIZE
  {
    Le32(END_MAGIC) + Le16(0) + Le16(0) + Le16(count) + Le16(count) + Le32(size) + Le32(offset) + Le16(0)
  }

  // ----- Reading fields back

  /** `s` stands at offset `o` of `b`. */
  ghost predicate At(b: bytes, o: nat, s: bytes) {
    o + |s| <= |b| && b[o..o + |s|] == s
  }

  lemma AtSplit(b: bytes, o: nat, s: bytes, t: bytes)
    requires At(b, o, s + t)
    ensures At(b, o, s) && At(b, o + |s|, t)
  {
    assert b[o..o + |s|] == (s + t)[..|s|];
    assert b[o + |s|..o + |s| + |t|] == (s + t)[|s|..];
  }

  lemma AtWithin(b: bytes, before: bytes, s: bytes, after: bytes)
    requires b == before + s + after
    ensures At(b, |before|, s)
  {}

  function Read16(b: bytes, o: nat): nat
    requires o + 2 <= |b|
  {
    ReadLe16(b[o..o + 2])
  }

  function Read32(b: bytes, o: nat): nat
    requires o + 4 <= |b|
  {
    ReadLe32(b[o..o + 4])
  }

  lemma ReadAt16(b: bytes, o: nat, n: nat)
    requires n < U16_LIMIT && At(b, o, Le16(n))
    ensures Read16(b, o) == n
  {
    ReadLe16Inverts(n);
  }

  lemma ReadAt32(b: bytes, o: nat, n: nat)
    requires n < U32_LIMIT && At(b, o, Le32(n))
    ensures Read32(b, o) == n
  {
    ReadLe32Inverts(n);
  }

  lemma ReadAtWord(b: bytes, o: nat, w: Word)
    requires At(b, o, LeBytes(w))
    ensures OfLeBytes(b[o..o + 4]) == w
  {}

  /** The shared fields at offset `o`, with the name standing at `nameAt`; no flag is understood. */
  function ReadMeta(b: bytes, o: nat, nameAt: nat): Option<Meta>
    requires o + 24 <= |b|
  {
    var n := Read16(b, o + 20);
    if nameAt + n > |b| || Read16(b, o) != 0 then None
    else
      var crc := OfLeBytes(b[o + 8..o + 12]);
      Some(Meta(b[nameAt..nameAt + n], Read16(b, o + 2), crc, Read32(b, o + 12), Read32(b, o + 16)))
  }

  lemma ReadMetaInverts(b: bytes, o: nat, nameAt: nat, m: Meta)
    requires MetaFits(m) && At(b, o, CommonFields(m)) && At(b, nameAt, m.name)
    ensures ReadMeta(b, o, nameAt) == Some(m) && Read16(b, o + 22) == 0
    ensures Read16(b, o) == Read16(b, o + 4) == Read16(b, o + 6) == 0
  {
    hide Le16, Le32, LeBytes, Read16, Read32, OfLeBytes;
    var upToDate := Le16(0) + Le16(m.compression) + Le16(0) + Le16(0);
    var upToSizes := upToDate + LeBytes(m.crc) + Le32(m.compressedSize) + Le32(m.uncompressedSize);
    AtSplit(b, o, upToSizes + Le16(|m.name|), Le16(0));
    AtSplit(b, o, upToSizes, Le16(|m.name|));
    AtSplit(b, o, upToDate + LeBytes(m.crc) + Le32(m.compressedSize), Le32(m.uncompressedSize));
    AtSplit(b, o, upToDate + LeBytes(m.crc), Le32(m.compressedSize));
    AtSplit(b, o, upToDate, LeBytes(m.crc));
    AtSplit(b, o, Le16(0) + Le16(m.compression) + Le16(0), Le16(0));
    AtSplit(b, o, Le16(0) + Le16(m.compression), Le16(0));
    AtSplit(b, o, Le16(0), Le16(m.compression));
    ReadAt16(b, o, 0);
    ReadAt16(b, o + 4, 0);
    ReadAt16(b, o + 6, 0);
    ReadAt16(b, o + 22, 0);
    ReadAt16(b, o + 20, |m.name|);
    ReadAt16(b, o + 2, m.compression);
    ReadAtWord(b, o + 8, m.crc);
    ReadAt32(b, o + 12, m.compressedSize);
    ReadAt32(b, o + 16, m.uncompressedSize);
  }

  /** A file as the archive stores it. */
  datatype Stored = Stored(meta: Meta, payload: bytes)

  /** The newest version of the format that the reader understands, 6.3. */
  const READER_VERSION: nat := 63

  /** The local header at `offset`, and the payload behind name and extra field. */
  function ReadLocal(b: bytes, offset: nat): Option<Stored> {
    if offset + 30 > |b| || Read32(b, offset) != 0x0403_4b50 || Read16(b, offset + 4) > READER_VERSION then None
    else match ReadMeta(b, offset + 6, offset + 30)
      case None => None
      case Some(m) =>
        var start := offset + 30 + |m.name| + Read16(b, offset + 28);
        if start + m.compressedSize > |b| then None else Some(Stored(m, b[start..start + m.compressedSize]))
  }

  /** A directory entry and the local record it points to, which must say the same about the file. */
  function ReadDirectoryEntry(b: bytes, at: nat): Option<Stored> {
    if at + 46 > |b| || Read32(b, at) != 0x0201_4b50 || Read16(b, at + 6) > READER_VERSION then None
    else match ReadMeta(b, at + 8, at + 46)
      case None => None
      case Some(m) => match ReadLocal(b, Read32(b, at + 42))
        case None => None
        case Some(f) => if f.meta == m && Read16(b, at + 34) == 0 then Some(f) else None
  }

  /** The lengths of name, extra field and comment say where the next entry starts. */
  function ReadDirectory(b: bytes, at: nat, count: nat): Option<seq<Stored>>
    decreases count
  {
    if count == 0 then Some([])
    else match ReadDirectoryEntry(b, at)
      case None => None
      case Some(f) =>
        match ReadDirectory(b, at + 46 + |f.meta.name| + Read16(b, at + 30) + Read16(b, at + 32), count - 1)
        case None => None
        case Some(rest) => Some([f] + rest)
  }

  /** Reads an archive on a single disk and without comment through its end record. */
  function ReadArchive(b: bytes): Option<seq<Stored>> {
    if |b| < 22 then None
    else
      var end := |b| - 22;
      var size, offset := Read32(b, end + 12), Read32(b, end + 16);
      if Read32(b, end) != 0x0605_4b50 || offset + size != end || !OneDisk(b, end) then None
      else ReadDirectory(b, offset, Read16(b, end + 10))
  }

  /** The end record names disk 0 only, all entries are on it, and no comment follows. */
  predicate OneDisk(b: bytes, end: nat)
    requires end + 22 <= |b|
  {
    && Read16(b, end + 4) == 0 && Read16(b, end + 6) == 0
    && Read16(b, end + 8) == Read16(b, end + 10) && Read16(b, end + 20) == 0
  }

  // ----- What the writer emits

  predicate Writable(f: Stored) {
    MetaFits(f.meta) && f.meta.compressedSize == |f.payload|
  }

  function LocalRecord(f: Stored): bytes
    requires Writable(f)
  {
    LocalHeader(f.meta) + f.payload
  }

  function WriteDirectory(es: seq<ZipEntry>): bytes
    requires forall e :: e in es ==> MetaFits(e.meta) && e.startOffset < U32_LIMIT
  {
    if es == [] then [] else DirectoryEntry(es[0]) + WriteDirectory(es[1..])
  }

  /** Every entry points at the local record of its file. */
  ghost predicate Indexed(b: bytes, es: seq<ZipEntry>, files: seq<Stored>) {
    |es| == |files| &&
    forall i :: 0 <= i < |es| ==>
      Writable(files[i]) && es[i].meta == files[i].meta && At(b, es[i].startOffset, LocalRecord(files[i]))
  }

  lemma ReadLocalInverts(b: bytes, offset: nat, f: Stored)
    requires Writable(f) && At(b, offset, LocalRecord(f))
    ensures ReadLocal(b, offset) == Some(f)
  {
    hide ReadMeta, CommonFields, Le32, Le16, Read32, Read16, LocalHeader;
    AtSplit(b, offset, LocalHeader(f.meta), f.payload);
    LocalHeaderFields(b, offset, f.meta);
  }

  /** The fields of a local header, as section 4.3.7 places them. */
  lemma LocalHeaderFields(b: bytes, o: nat, m: Meta)
    requires MetaFits(m) && At(b, o, LocalHeader(m))
    ensures Read32(b, o) == 0x0403_4b50 && Read16(b, o + 4) == 45
    ensures Read16(b, o + 6) == 0 && Read16(b, o + 10) == 0 && Read16(b, o + 12) == 0 && Read16(b, o + 28) == 0
    ensures ReadMeta(b, o + 6, o + 30) == Some(m)
  {
    hide ReadMeta, CommonFields, Le32, Le16, Read32, Read16;
    AtSplit(b, o, Le32(LOCAL_MAGIC) + Le16(VERSION) + CommonFields(m), m.name);
    AtSplit(b, o, Le32(LOCAL_MAGIC) + Le16(VERSION), CommonFields(m));
    AtSplit(b, o, Le32(LOCAL_MAGIC), Le16(VERSION));
    ReadAt32(b, o, LOCAL_MAGIC);
    ReadAt16(b, o + 4, VERSION);
    ReadMetaInverts(b, o + 6, o + 30, m);
  }

  lemma ReadDirectoryEntryInverts(b: bytes, at: nat, e: ZipEntry, f: Stored)
    requires Writable(f) && e.meta == f.meta && e.startOffset < U32_LIMIT
    requires At(b, at, DirectoryEntry(e)) && At(b, e.startOffset, LocalRecord(f))
    ensures ReadDirectoryEntry(b, at) == Some(f) && Read16(b, at + 30) == 0 && Read16(b, at + 32) == 0
  {
    hide ReadMeta, Read32, Read16, ReadLocal, LocalRecord, DirectoryEntry;
    DirectoryEntryFields(b, at, e);
    ReadLocalInverts(b, e.startOffset, f);
  }

  /** The fields of a directory entry, as section 4.3.12 places them. */
  lemma DirectoryEntryFields(b: bytes, at: nat, e: ZipEntry)
    requires MetaFits(e.meta) && e.startOffset < U32_LIMIT && At(b, at, DirectoryEntry(e))
    ensures Read32(b, at) == 0x0201_4b50 && Read16(b, at + 4) == 45 && Read16(b, at + 6) == 45
    ensures Read16(b, at + 8) == 0 && Read16(b, at + 12) == 0 && Read16(b, at + 14) == 0 && Read16(b, at + 30) == 0
    ensures Read16(b, at + 32) == 0 && Read16(b, at + 34) == 0 && Read16(b, at + 36) == 0 && Read32(b, at + 38) == 0
    ensures Read32(b, at + 42) == e.startOffset && ReadMeta(b, at + 8, at + 46) == Some(e.meta)
  {
    hide ReadMeta, CommonFields, Le32, Le16, Read32, Read16;
    var m, zeros := e.meta, Le16(0) + Le16(0) + Le16(0) + Le32(0);
    var head := Le32(DIRECTORY_MAGIC) + Le16(VERSION) + Le16(VERSION);
    AtSplit(b, at, head + CommonFields(m) + zeros + Le32(e.startOffset), m.name);
    AtSplit(b, at, head + CommonFields(m) + zeros, Le32(e.startOffset));
    AtSplit(b, at, head + CommonFields(m), zeros);
    AtSplit(b, at, head, CommonFields(m));
    AtSplit(b, at, Le32(DIRECTORY_MAGIC) + Le16(VERSION), Le16(VERSION));
    AtSplit(b, at, Le32(DIRECTORY_MAGIC), Le16(VERSION));
    AtSplit(b, at + 32, Le16(0) + Le16(0) + Le16(0), Le32(0));
    AtSplit(b, at + 32, Le16(0) + Le16(0), Le16(0));
    AtSplit(b, at + 32, Le16(0), Le16(0));
    ReadAt32(b, at, DIRECTORY_MAGIC);
    ReadAt16(b, at + 4, VERSION);
    ReadAt16(b, at + 6, VERSION);
    ReadAt16(b, at + 32, 0);
    ReadAt16(b, at + 34, 0);
    ReadAt16(b, at + 36, 0);
    ReadAt32(b, at + 38, 0);
    ReadAt32(b, at + 42, e.startOffset);
    ReadMetaInverts(b, at + 8, at + 46, m);
  }

  lemma {:induction false} ReadDirectoryInverts(b: bytes, at: nat, es: seq<ZipEntry>, files: seq<Stored>)
    requires Indexed(b, es, files)
    requires forall e :: e in es ==> MetaFits(e.meta) && e.startOffset < U32_LIMIT
    requires At(b, at, WriteDirectory(es))
    ensures ReadDirectory(b, at, |es|) == Some(files)
    decreases |es|
  {
    hide ReadDirectoryEntry, DirectoryEntry, LocalRecord, Read16;
    if es != [] {
      AtSplit(b, at, DirectoryEntry(es[0]), WriteDirectory(es[1..]));
      ReadDirectoryEntryInverts(b, at, es[0], files[0]);
      ReadDirectoryInverts(b, at + |DirectoryEntry(es[0])|, es[1..], files[1..]);
      assert [files[0]] + files[1..] == files;
    }
  }

  /** An archive: local records and whatever stands between them, the directory, the end record. */
  lemma ReadArchiveInverts(front: bytes, es: seq<ZipEntry>, files: seq<Stored>)
    requires Indexed(front, es, files)
    requires forall e :: e in es ==> MetaFits(e.meta) && e.startOffset < U32_LIMIT
    requires |es| < U16_LIMIT && |front| < U32_LIMIT && |WriteDirectory(es)| < U32_LIMIT
    ensures var dir := WriteDirectory(es);
            ReadArchive(front + dir + EndRecord(|es|, |dir|, |front|)) == Some(files)
  {
    hide ReadDirectory, WriteDirectory, Le32, Le16, Read32, Read16, LocalRecord;
    var dir := WriteDirectory(es);
    var end := EndRecord(|es|, |dir|, |front|);
    var b := front + dir + end;
    var at := |front| + |dir|;
    AtWithin(b, front + dir, end, []);
    EndRecordFields(b, at, |es|, |dir|, |front|);
    AtWithin(b, front, dir, end);
    IndexedExtends(front, dir + end, es, files);
    assert front + (dir + end) == b;
    ReadDirectoryInverts(b, |front|, es, files);
  }

  /** The fields of an end record, as section 4.3.16 places them. */
  lemma EndRecordFields(b: bytes, at: nat, count: nat, size: nat, offset: nat)
    requires count < U16_LIMIT && size < U32_LIMIT && offset < U32_LIMIT && At(b, at, EndRecord(count, size, offset))
    ensures Read32(b, at) == 0x0605_4b50 && Read16(b, at + 4) == 0 && Read16(b, at + 6) == 0
    ensures Read16(b, at + 8) == count && Read16(b, at + 10) == count
    ensures Read32(b, at + 12) == size && Read32(b, at + 16) == offset && Read16(b, at + 20) == 0
  {
    hide Le32, Le16, Read32, Read16;
    var head := Le32(END_MAGIC) + Le16(0) + Le16(0);
    AtSplit(b, at, head + Le16(count) + Le16(count) + Le32(size) + Le32(offset), Le16(0));
    AtSplit(b, at, head + Le16(count) + Le16(count) + Le32(size), Le32(offset));
    AtSplit(b, at, head + Le16(count) + Le16(count), Le32(size));
    AtSplit(b, at, head + Le16(count), Le16(count));
    AtSplit(b, at, head, Le16(count));
    AtSplit(b, at, Le32(END_MAGIC) + Le16(0), Le16(0));
    AtSplit(b, at, Le32(END_MAGIC), Le16(0));
    ReadAt32(b, at, END_MAGIC);
    ReadAt16(b, at + 4, 0);
    ReadAt16(b, at + 6, 0);
    ReadAt16(b, at + 8, count);
    ReadAt16(b, at + 10, count);
    ReadAt32(b, at + 12, size);
    ReadAt32(b, at + 16, offset);
    ReadAt16(b, at + 20, 0);
  }

  lemma IndexedExtends(b: bytes, more: bytes, es: seq<ZipEntry>, files: seq<Stored>)
    requires Indexed(b, es, files)
    ensures Indexed(b + more, es, files)
  {
    hide LocalRecord;
    forall i | 0 <= i < |es| ensures At(b + more, es[i].startOffset, LocalRecord(files[i])) {
      var o, s := es[i].startOffset, LocalRecord(files[i]);
      assert (b + more)[o..o + |s|] == b[o..o + |s|];
    }
  }

  /** `s` is the directory of `es`, to be placed at `offset`, with its end record. */
  ghost predicate IsDirectory(es: seq<ZipEntry>, offset: nat, s: bytes) {
    && |es| < U16_LIMIT && offset < U32_LIMIT
    && (forall e :: e in es ==> MetaFits(e.meta) && e.startOffset < U32_LIMIT)
    && |WriteDirectory(es)| < U32_LIMIT
    && s == WriteDirectory(es) + EndRecord(|es|, |WriteDirectory(es)|, offset)
  }

  /** Placed behind any bytes of that length that hold the records, the directory finds the files. */
  lemma DirectoryFinds(front: bytes, es: seq<ZipEntry>, files: seq<Stored>, s: bytes)
    requires IsDirectory(es, |front|, s) && Indexed(front, es, files)
    ensures ReadArchive(front + s) == Some(files)
  {
    hide ReadArchive, EndRecord, Indexed;
    var dir := WriteDirectory(es);
    ReadArchiveInverts(front, es, files);
    assert front + dir + EndRecord(|es|, |dir|, |front|) == front + s;
  }

  function DirectorySize(es: seq<ZipEntry>): nat {
    if es == [] then 0 else CENTRAL_DIRECTORY_ENTRY_SIZE + |es[0].meta.name| + DirectorySize(es[1..])
  }

  lemma {:induction false} DirectorySizeExact(es: seq<ZipEntry>)
    requires forall e :: e in es ==> MetaFits(e.meta) && e.startOffset < U32_LIMIT
    ensures |WriteDirectory(es)| == DirectorySize(es)
  {
    hide DirectoryEntry;
    if es != [] {
      DirectorySizeExact(es[1..]);
    }
  }

  lemma {:induction false} WriteDirectorySnoc(es: seq<ZipEntry>, e: ZipEntry)
    requires forall x :: x in es + [e] ==> MetaFits(x.meta) && x.startOffset < U32_LIMIT
    ensures WriteDirectory(es + [e]) == WriteDirectory(es) + DirectoryEntry(e)
    ensures DirectorySize(es + [e]) == DirectorySize(es) + CENTRAL_DIRECTORY_ENTRY_SIZE + |e.meta.name|
  {
    hide DirectoryEntry;
    if es == [] {
      assert es + [e] == [e];
    } else {
      assert (es + [e])[1..] == es[1..] + [e];
      WriteDirectorySnoc(es[1..], e);
    }
  }

  // ----- The writer

  /** The metadata and payload `encode_file` chooses; `packed` is the deflated data, if it is to be deflated. */
  function ToStore(table: Table, name: bytes, data: bytes, packed: Option<bytes>): Stored {
    var payload := packed.GetOr(data);
    Stored(Meta(name, if packed.Some? then 8 else 0, Checksum(table, data), |payload|, |data|), payload)
  }

  class ZipWriter {
    const table: Table
    var currentOffset: nat
    var entries: seq<ZipEntry>
    ghost var front: bytes
    ghost var files: seq<Stored>

    /** `front` is what was emitted or skipped so far; every entry points at its local record in it. */
    ghost predicate Valid()
      reads this
    {
      currentOffset == |front| && Indexed(front, entries, files)
    }

    constructor (table: Table)
      ensures Valid() && front == [] && files == [] && this.table == table
    {
      this.table := table;
      currentOffset := 0;
      entries := [];
      front := [];
      files := [];
    }

    /** `None` stands for the failed conversions to `u32` and `u16`. */
    method EncodeFile(name: bytes, data: bytes, packed: Option<bytes>) returns (record: Option<bytes>)
      requires Valid()
      modifies this
      ensures Valid()
      ensures var f := ToStore(table, name, data, packed);
              if Writable(f) then
                && record == Some(LocalRecord(f))
                && front == old(front) + LocalRecord(f) && files == old(files) + [f]
              else record.None? && front == old(front) && files == old(files)
    {
      hide LocalRecord, Checksum, Indexed, LocalHeader;
      var f := ToStore(table, name, data, packed);
      if |data| >= U32_LIMIT || |f.payload| >= U32_LIMIT || |name| >= U16_LIMIT {
        return None;
      }
      var buf := LocalHeader(f.meta);
      entries := entries + [ZipEntry(currentOffset, f.meta)];
      currentOffset := currentOffset + |buf|;
      currentOffset := currentOffset + |f.payload|;
      buf := buf + f.payload;
      LocalRecordIs(f);
      IndexedSnoc(front, old(entries), files, f);
      files := files + [f];
      front := front + buf;
      record := Some(buf);
    }

    /** Accounts for bytes, here `skipped`, that are put between the records. */
    method AdvanceOffset(n: nat, ghost skipped: bytes)
      requires Valid() && |skipped| == n
      modifies this`currentOffset, this`front
      ensures Valid() && front == old(front) + skipped
    {
      hide LocalRecord;
      IndexedExtends(front, skipped, entries, files);
      currentOffset := currentOffset + n;
      front := front + skipped;
    }

    /** The directory is announced with its true size, and reading the finished archive gives back the files. */
    method EncodeCentralDirectory() returns (r: Option<bytes>)
      requires Valid()
      ensures r.Some? ==> IsDirectory(entries, currentOffset, r.value)
      ensures r.Some? ==> |r.value| == DirectorySize(entries) + END_OF_CENTRAL_DIRECTORY_SIZE
      ensures r.Some? ==> ReadArchive(front + r.value) == Some(files)
      ensures r.None? <==> currentOffset >= U32_LIMIT || |entries| >= U16_LIMIT || DirectorySize(entries) >= U32_LIMIT
    {
      hide LocalRecord, DirectoryEntry, EndRecord, ReadArchive;
      if currentOffset >= U32_LIMIT || |entries| >= U16_LIMIT {
        return None;
      }
      OffsetsFit(front, entries, files);
      var buf: bytes := [];
      for i := 0 to |entries|
        invariant buf == WriteDirectory(entries[..i])
      {
        assert entries[..i + 1] == entries[..i] + [entries[i]];
        WriteDirectorySnoc(entries[..i], entries[i]);
        buf := buf + DirectoryEntry(entries[i]);
      }
      assert entries[..|entries|] == entries;
      DirectorySizeExact(entries);
      if |buf| >= U32_LIMIT {
        return None;
      }
      var end := EndRecord(|entries|, |buf|, currentOffset);
      DirectoryFinds(front, entries, files, buf + end);
      r := Some(buf + end);
    }

    method CentralDirectorySize() returns (size: nat)
      ensures size == DirectorySize(entries) + END_OF_CENTRAL_DIRECTORY_SIZE
    {
      size := 0;
      for i := 0 to |entries|
        invariant size + DirectorySize(entries[i..]) == DirectorySize(entries)
      {
        assert entries[i..][1..] == entries[i + 1..];
        size := size + CENTRAL_DIRECTORY_ENTRY_SIZE + |entries[i].meta.name|;
      }
      size := size + END_OF_CENTRAL_DIRECTORY_SIZE;
    }
  }

  lemma IndexedSnoc(front: bytes, es: seq<ZipEntry>, files: seq<Stored>, f: Stored)
    requires Indexed(front, es, files) && Writable(f)
    ensures Indexed(front + LocalRecord(f), es + [ZipEntry(|front|, f.meta)], files + [f])
  {
    hide LocalRecord;
    IndexedExtends(front, LocalRecord(f), es, files);
    assert front + LocalRecord(f) + [] == front + LocalRecord(f);
    AtWithin(front + LocalRecord(f), front, LocalRecord(f), []);
  }

  lemma LocalRecordIs(f: Stored)
    requires Writable(f)
    ensures LocalRecord(f) == LocalHeader(f.meta) + f.payload
  {}

  lemma OffsetsFit(front: bytes, es: seq<ZipEntry>, files: seq<Stored>)
    requires Indexed(front, es, files) && |front| < U32_LIMIT
    ensures forall e :: e in es ==> MetaFits(e.meta) && e.startOffset < U32_LIMIT
  {}
}
