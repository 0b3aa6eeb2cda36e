/** The whole way of a world: taken apart on the server, rebuilt on the client, downloaded by the game. */
module Transfer {
  import opened Bytes
  import opened Word32
  import opened ChunkLists
  import opened Chunking
  import opened Provider
  import opened World
  import opened Blocks
  import Crc32
  import RevCrc
  import Dedup
  import Zip
  import Download
  import BlockServer

  /** A file as an archive reader yields it. */
  datatype ArchiveFile = ArchiveFile(name: bytes, data: bytes)

  /** The ZIP library's reader. */
  type Unzip = bytes -> Option<seq<ArchiveFile>>

  datatype NamedFile = NamedFile(name: bytes, file: FactorioFile)

  datatype FileDescription = FileDescription(fileType: FileType, name: bytes, contentSize: nat, chunkList: ChunkList)

  datatype WorldDescription = WorldDescription(files: seq<FileDescription>, aux: bytes, totalChunks: nat)

  function DecodeFiles(c: Codecs, es: seq<ArchiveFile>): Option<seq<NamedFile>> {
    if es == [] then Some([])
    else
      match (DecodeFile(c, es[0].name, es[0].data), DecodeFiles(c, es[1..]))
      case (Some(f), Some(rest)) => Some([NamedFile(es[0].name, f)] + rest)
      case _ => None
  }

  /** The files of a world archive. */
  function FilesOf(c: Codecs, unzip: Unzip, world: bytes): Option<seq<NamedFile>> {
    match unzip(world)
    case None => None
    case Some(es) => DecodeFiles(c, es)
  }

  /** The records the client writes for the files. */
  function Records(c: Codecs, table: Crc32.Table, files: seq<NamedFile>): (r: seq<Zip.Stored>)
    ensures |r| == |files|
  {
    seq(|files|, i requires 0 <= i < |files| => FileRecord(c, table, files[i].name, files[i].file))
  }

  /** A reader's view of the stored files: `None` if one is damaged. */
  function Extract(c: Codecs, table: Crc32.Table, fs: seq<Zip.Stored>): Option<seq<ArchiveFile>> {
    if fs == [] then Some([])
    else
      match (Unpack(c, table, fs[0]), Extract(c, table, fs[1..]))
      case (Some(data), Some(rest)) => Some([ArchiveFile(fs[0].meta.name, data)] + rest)
      case _ => None
  }

  /** The files of the rebuilt archive are intact and decode to the files of the original one. */
  lemma {:induction false} FilesSurvive(c: Codecs, table: Crc32.Table, es: seq<ArchiveFile>)
    requires Invertible(c) && DecodeFiles(c, es).Some?
    ensures var files := DecodeFiles(c, es).value;
            var out := Extract(c, table, Records(c, table, files));
            out.Some? && DecodeFiles(c, out.value) == Some(files)
    decreases |es|
  {
    hide Unpack, DecodeFile, FileRecord, Invertible;
    if es != [] {
      var files := DecodeFiles(c, es).value;
      FilesSurvive(c, table, es[1..]);
      assert files[1..] == DecodeFiles(c, es[1..]).value;
      assert Records(c, table, files)[1..] == Records(c, table, files[1..]);
      DecodedFileSurvives(c, table, es[0], files[0].file);
      var out := Extract(c, table, Records(c, table, files)).value;
      assert out[1..] == Extract(c, table, Records(c, table, files[1..])).value;
      assert [files[0]] + files[1..] == files;
    }
  }

  lemma DecodedFileSurvives(c: Codecs, table: Crc32.Table, e: ArchiveFile, f: FactorioFile)
    requires Invertible(c) && DecodeFile(c, e.name, e.data) == Some(f)
    ensures var s := FileRecord(c, table, e.name, f);
            s.meta.name == e.name && Unpack(c, table, s).Some? &&
              DecodeFile(c, e.name, Unpack(c, table, s).value) == Some(f)
  {
    hide IsLevelName, Unpack, Crc32.Checksum;
    FileSurvives(c, table, e.name, f);
  }

  // ----- Taking the world apart

  function Describe(h: Hash, f: NamedFile): FileDescription {
    FileDescription(f.file.fileType, f.name, |f.file.data|, Dedup.MinimizedRoot(h, f.file.data))
  }

  function Descriptions(h: Hash, files: seq<NamedFile>): (r: seq<FileDescription>)
    ensures |r| == |files|
  {
    seq(|files|, i requires 0 <= i < |files| => Describe(h, files[i]))
  }

  /** Every string stored for the files. */
  function AllStored(h: Hash, files: seq<NamedFile>): set<bytes> {
    if files == [] then {} else AllStored(h, files[..|files| - 1]) + Dedup.StoredFor(h, files[|files| - 1].file.data)
  }

  method ChunkFile(h: Hash, f: NamedFile, chunks0: map<Key, bytes>)
    returns (d: FileDescription, chunks: map<Key, bytes>)
    ensures d == Describe(h, f)
    ensures d.fileType == f.file.fileType && d.name == f.name && d.contentSize == |f.file.data|
    ensures |d.chunkList.chunks| < 64
    ensures Dedup.Inserted(h, chunks0, Dedup.StoredFor(h, f.file.data), chunks)
  {
    hide Dedup.Root, Dedup.Stored, Dedup.Inserted, Dedup.MinimizeStores, Dedup.Minimized, Chunks;
    ghost var root := Dedup.RootOf(h, f.file.data);
    var chunkList, chunks1 := Dedup.ChunkData(h, f.file.data, chunks0);
    var minimized := Dedup.MinimizeChunkList(h, chunkList, chunks1);
    chunkList, chunks := minimized.value.0, minimized.value.1;
    Dedup.InsertedTwice(h, chunks0, Dedup.Stored(h, Chunks(f.file.data)), chunks1, Dedup.MinimizeStores(root), chunks);
    d := FileDescription(f.file.fileType, f.name, |f.file.data|, chunkList);
  }

  /**
   * Fails exactly when the archive or a level file cannot be read; the map holds the trees of all files and nothing
   * else.
   */
  method DeconstructWorld(h: Hash, c: Codecs, unzip: Unzip, world: bytes, aux: bytes)
    returns (r: Option<(WorldDescription, map<Key, bytes>)>)
    ensures r.Some? <==> FilesOf(c, unzip, world).Some?
    ensures r.Some? ==>
              var (desc, chunks) := r.value;
              var files := FilesOf(c, unzip, world).value;
              && desc == WorldDescription(Descriptions(h, files), aux, |chunks|)
              && Dedup.Inserted(h, map[], AllStored(h, files), chunks)
  {
    hide Dedup.Inserted, Describe, DecodeFile, Dedup.StoredFor;
    var archive := unzip(world);
    if archive.None? {
      return None;
    }
    var es := archive.value;
    var chunks: map<Key, bytes> := map[];
    var descs: seq<FileDescription> := [];
    ghost var files: seq<NamedFile> := [];
    Dedup.InsertedNothing(h, map[]);
    for i := 0 to |es|
      invariant DecodeFiles(c, es[..i]) == Some(files)
      invariant descs == Descriptions(h, files)
      invariant Dedup.Inserted(h, map[], AllStored(h, files), chunks)
    {
      assert es[..i + 1] == es[..i] + [es[i]];
      DecodeFilesSnoc(c, es[..i], es[i]);
      var decoded := DecodeFile(c, es[i].name, es[i].data);
      if decoded.None? {
        SplitAt(es, i + 1);
        DecodeFilesPrefix(c, es[..i + 1], es[i + 1..]);
        return None;
      }
      var f := NamedFile(es[i].name, decoded.value);
      ghost var chunks1 := chunks;
      var d;
      d, chunks := ChunkFile(h, f, chunks);
      Dedup.InsertedTwice(h, map[], AllStored(h, files), chunks1, Dedup.StoredFor(h, f.file.data), chunks);
      assert (files + [f])[..|files|] == files;
      files := files + [f];
      descs := descs + [d];
    }
    assert es[..|es|] == es;
    r := Some((WorldDescription(descs, aux, |chunks|), chunks));
  }

  lemma {:induction false} DecodeFilesSnoc(c: Codecs, es: seq<ArchiveFile>, e: ArchiveFile)
    ensures DecodeFiles(c, es + [e]) ==
            match (DecodeFiles(c, es), DecodeFile(c, e.name, e.data))
            case (Some(files), Some(f)) => Some(files + [NamedFile(e.name, f)])
            case _ => None
    decreases |es|
  {
    hide DecodeFile;
    if es == [] {
      assert es + [e] == [e] && [e][1..] == [];
      assert DecodeFiles(c, []) == Some([]);
      if f :| DecodeFile(c, e.name, e.data) == Some(f) {
        assert [NamedFile(e.name, f)] + [] == [] + [NamedFile(e.name, f)];
      }
    } else {
      assert (es + [e])[0] == es[0] && (es + [e])[1..] == es[1..] + [e];
      DecodeFilesSnoc(c, es[1..], e);
      if DecodeFiles(c, es).Some? && DecodeFile(c, e.name, e.data).Some? {
        var first, rest := DecodeFiles(c, es).value[0], DecodeFiles(c, es[1..]).value;
        var last := NamedFile(e.name, DecodeFile(c, e.name, e.data).value);
        assert [first] + (rest + [last]) == [first] + rest + [last];
      }
    }
  }

  lemma {:induction false} DecodeFilesPrefix(c: Codecs, es: seq<ArchiveFile>, more: seq<ArchiveFile>)
    requires DecodeFiles(c, es).None?
    ensures DecodeFiles(c, es + more).None?
    decreases |es|
  {
    hide DecodeFile;
    if es != [] {
      assert (es + more)[1..] == es[1..] + more;
      if DecodeFiles(c, es[1..]).None? {
        DecodeFilesPrefix(c, es[1..], more);
      }
    }
  }

  /** Without hash collisions the map has one chunk per distinct string: whatever files share is stored once. */
  lemma {:induction false} EachStoredOnce(h: Hash, s: set<bytes>, m: map<Key, bytes>)
    requires Dedup.Inserted(h, map[], s, m) && Dedup.CollisionFree(h, s)
    ensures |m| == |s| && m.Values == s
    decreases |s|
  {
    Dedup.InsertedHolds(h, map[], s, m);
    forall x | x in s ensures x in m.Values {
      assert h(x) in m;
    }
    forall x | x in m.Values ensures x in s {}
    if s == {} {
      assert m == map[];
    } else {
      var x :| x in s;
      var m' := m - {h(x)};
      assert |m.Keys| == |m'.Keys| + 1 by { assert m.Keys == m'.Keys + {h(x)}; }
      EachStoredOnce(h, s - {x}, m');
    }
  }

  // ----- Rebuilding it

  ghost predicate AllHeld(h: Hash, m: map<Key, bytes>, files: seq<NamedFile>) {
    forall i :: 0 <= i < |files| ==> Dedup.Holds(h, m, Dedup.StoredFor(h, files[i].file.data))
  }

  lemma {:induction false} AllStoredHeld(h: Hash, m: map<Key, bytes>, files: seq<NamedFile>)
    requires Dedup.Holds(h, m, AllStored(h, files))
    ensures AllHeld(h, m, files)
    decreases |files|
  {
    hide Dedup.StoredFor;
    if files != [] {
      AllStoredHeld(h, m, files[..|files| - 1]);
    }
  }

  lemma HeldAbove(h: Hash, server: map<Key, bytes>, content: map<Key, bytes>, files: seq<NamedFile>)
    requires AllHeld(h, server, files) && Submap(server, content)
    ensures AllHeld(h, content, files)
  {
    hide Dedup.StoredFor;
  }

  function DepthOf(h: Hash, data: bytes): nat {
    if Dedup.MinimizedRoot(h, data) == Dedup.RootOf(h, data)
    then Dedup.TreeHeight(h, data)
    else Dedup.TreeHeight(h, data) + 1
  }

  lemma FileReadsBack(h: Hash, m: map<Key, bytes>, data: bytes)
    requires Dedup.Holds(h, m, Dedup.StoredFor(h, data))
    ensures var root := Dedup.MinimizedRoot(h, data);
            && Dedup.Reaches(m, root.isLeaf, root.chunks, DepthOf(h, data))
            && Dedup.Finite(m, root.isLeaf, root.chunks, DepthOf(h, data))
            && Dedup.Read(m, root.isLeaf, root.chunks, DepthOf(h, data)) == Dedup.Outcome(Chunks(data), Dedup.Done)
    ensures Flatten(Chunks(data)) == data
  {
    hide Dedup.Root, Dedup.Stored, Dedup.Read, Dedup.AtDepth, Dedup.Reaches, Dedup.Finite, Dedup.Height, Chunks;
    var root := Dedup.MinimizedRoot(h, data);
    Dedup.TreeAtDepth(h, m, data);
    Dedup.AtDepthReaches(m, root.isLeaf, root.chunks, DepthOf(h, data));
    Dedup.ReachesFinite(m, root.isLeaf, root.chunks, DepthOf(h, data));
    Dedup.RootReadsBack(h, m, data, DepthOf(h, data));
    Dedup.MinimizedReadsBack(h, m, data, Dedup.TreeHeight(h, data) + 1);
  }

  function LocalRecords(records: seq<Zip.Stored>): (s: bytes)
    requires forall r :: r in records ==> Zip.Writable(r)
  {
    if records == [] then [] else LocalRecords(records[..|records| - 1]) + Zip.LocalRecord(records[|records| - 1])
  }

  function NamesSize(records: seq<Zip.Stored>): nat {
    if records == [] then 0
    else Zip.CENTRAL_DIRECTORY_ENTRY_SIZE + |records[0].meta.name| + NamesSize(records[1..])
  }

  lemma {:induction false} DirectorySizeOf(es: seq<Zip.ZipEntry>, records: seq<Zip.Stored>)
    requires |es| == |records| && forall i :: 0 <= i < |es| ==> es[i].meta == records[i].meta
    ensures Zip.DirectorySize(es) == NamesSize(records)
  {
    if es != [] {
      DirectorySizeOf(es[1..], records[1..]);
    }
  }

  /** The archive, the forged bytes and the auxiliary data stay within the announced size and the formats' limits. */
  ghost predicate Fits(records: seq<Zip.Stored>, aux: bytes, target: nat, checked: bool) {
    && (forall r :: r in records ==> Zip.Writable(r))
    && |LocalRecords(records)| + NamesSize(records) + Zip.END_OF_CENTRAL_DIRECTORY_SIZE + 4 <= target
    && |records| < U16_LIMIT && FitsBuild(checked, target, |aux|)
  }

  datatype Result = Sent(pieces: seq<bytes>) | FetchFailed(status: Fetch) | NotWritable | Refused

  /**
   * What the client proxy hands to its block server: the archive of the records with the announced size and checksum,
   * and `aux`.
   */
  ghost predicate Delivers(table: Crc32.Table, records: seq<Zip.Stored>, aux: bytes, target: nat, crc: Word,
                           stream: bytes) {
    && FitsBlocks(target, |aux|) && target <= |stream|
    && stream == Layout(stream[..target], aux)
    && Crc32.Checksum(table, stream[..target] + aux) == crc
    && Zip.ReadArchive(stream[..target]) == Some(records)
  }

  /**
   * Whatever other clients do to the shared cache meanwhile, what is sent is the world; with a reliable server it is
   * sent exactly when it fits.
   */
  method TransferWorldData(provider: ChunkFetcherProvider, rev: RevCrc.ReverseTable, table: Crc32.Table, codecs: Codecs,
                           desc: WorldDescription, target: nat, crc: Word, checked: bool, ghost files: seq<NamedFile>)
    returns (r: Result)
    requires provider.Valid() && rev.Valid() && rev.table == table && Crc32.TopsPermuted(table)
    requires desc.files == Descriptions(provider.h, files) && AllHeld(provider.h, provider.server, files)
    modifies provider
    ensures r.Sent? && FitsBlocks(target, |desc.aux|) ==>
              Delivers(table, Records(codecs, table, files), desc.aux, target, crc, Flatten(r.pieces))
    ensures provider.Reports(!r.FetchFailed?) && (old(provider.Known()) ==> provider.Known())
    ensures !r.FetchFailed? ==> (r.Sent? && FitsBlocks(target, |desc.aux|) <==>
              Fits(Records(codecs, table, files), desc.aux, target, checked))
    ensures checked && r.Sent? ==> FitsBuild(checked, target, |desc.aux|)
  {
    hide Authentic, Fits, Delivers, AllHeld, IsWorld, IsImage, Zip.Indexed, Zip.Writable, Zip.LocalRecord;
    hide ChunkFetcherProvider.Smooth, ChunkFetcherProvider.Known, Genuine, Submap, Dedup.HashConsistent;
    hide Crc32.TopsPermuted, ListsReach, ListsFinite, AllReadable;
    var lists := ListsOf(desc.files);
    ghost var depths := DepthsOf(provider.h, files);
    HeldAbove(provider.h, provider.server, provider.content, files);
    RootsAtDepth(provider.h, provider.server, files);
    RootsAtDepth(provider.h, provider.content, files);
    var status := provider.PrefetchMetadata(lists, depths);
    if status != Fetched {
      return FetchFailed(status);
    }
    var world := new WorldReconstructor(codecs, rev, table);
    r := SendFiles(provider, world, desc.files, files);
    ghost var records := Records(codecs, table, files);
    if !r.Sent? {
      OnlyWritableFits(records, desc.aux, target, checked);
      return;
    }
    RoomNeeded(world.zip.front, world.zip.entries, records, desc.aux, target, checked);
    var last := world.FinalizeWorld(desc.aux, target, crc, checked);
    if !last.Finished? {
      return Refused;
    }
    FlattenSnoc(r.pieces, last.output);
    if FitsBlocks(target, |desc.aux|) {
      WorldDelivers(table, LocalRecords(records), records, desc.aux, target, crc, last.output);
    }
    r := Sent(r.pieces + [last.output]);
  }

  lemma OnlyWritableFits(records: seq<Zip.Stored>, aux: bytes, target: nat, checked: bool)
    ensures (exists x :: x in records && !Zip.Writable(x)) ==> !Fits(records, aux, target, checked)
  {}

  lemma RoomNeeded(front: bytes, es: seq<Zip.ZipEntry>, records: seq<Zip.Stored>, aux: bytes, target: nat,
                   checked: bool)
    requires (forall x :: x in records ==> Zip.Writable(x)) && front == LocalRecords(records) &&
               Zip.Indexed(front, es, records)
    ensures Fits(records, aux, target, checked) <==>
            && |front| + Zip.DirectorySize(es) + Zip.END_OF_CENTRAL_DIRECTORY_SIZE + 4 <= target
            && FitsBuild(checked, target, |aux|) && !TooManyForZip(es, target) && AlignedLength(target) >= |front|
  {
    hide Zip.Writable, Zip.LocalRecord, LocalRecords, AlignedLength;
    DirectorySizeOf(es, records);
    AlignedExact(target);
  }

  lemma WorldDelivers(table: Crc32.Table, front: bytes, records: seq<Zip.Stored>, aux: bytes, target: nat, crc: Word,
                      output: bytes)
    requires IsWorld(table, front, records, aux, target, crc, output)
    ensures Delivers(table, records, aux, target, crc, front + output)
  {
    hide Zip.ReadArchive, Crc32.Checksum, Layout;
  }

  function ListsOf(files: seq<FileDescription>): seq<ChunkList> {
    seq(|files|, i requires 0 <= i < |files| => files[i].chunkList)
  }

  ghost function DepthsOf(h: Hash, files: seq<NamedFile>): seq<nat> {
    seq(|files|, i requires 0 <= i < |files| => DepthOf(h, files[i].file.data))
  }

  lemma RootsAtDepth(h: Hash, m: map<Key, bytes>, files: seq<NamedFile>)
    requires AllHeld(h, m, files)
    ensures ListsReach(m, ListsOf(Descriptions(h, files)), DepthsOf(h, files))
    ensures ListsFinite(m, ListsOf(Descriptions(h, files)), DepthsOf(h, files))
    ensures AllReadable(m, ListsOf(Descriptions(h, files)), DepthsOf(h, files))
  {
    hide Dedup.Reaches, Dedup.Finite, Dedup.Read, Dedup.StoredFor, Dedup.MinimizedRoot, DepthOf, Dedup.Holds;
    forall i | 0 <= i < |files|
      ensures var root := Dedup.MinimizedRoot(h, files[i].file.data);
              && Dedup.Finite(m, root.isLeaf, root.chunks, DepthOf(h, files[i].file.data))
              && Dedup.Reaches(m, root.isLeaf, root.chunks, DepthOf(h, files[i].file.data))
              && Readable(m, root, DepthOf(h, files[i].file.data))
    {
      FileReadsBack(h, m, files[i].file.data);
    }
  }

  lemma NoRecords()
    ensures LocalRecords([]) == [] == Flatten<byte>([])
  {}

  lemma DescribesRecord(h: Hash, c: Codecs, table: Crc32.Table, f: NamedFile, d: FileDescription)
    requires d == Describe(h, f)
    ensures FileRecord(c, table, d.name, FactorioFile(d.fileType, f.file.data)) == FileRecord(c, table, f.name, f.file)
  {}

  lemma NextRecord(records: seq<Zip.Stored>, i: nat, pieces: seq<bytes>, entry: bytes)
    requires i < |records| && (forall x :: x in records[..i] ==> Zip.Writable(x)) && Zip.Writable(records[i])
    requires LocalRecords(records[..i]) == Flatten(pieces) && entry == Zip.LocalRecord(records[i])
    ensures records[..i + 1] == records[..i] + [records[i]] && forall x :: x in records[..i + 1] ==> Zip.Writable(x)
    ensures LocalRecords(records[..i + 1]) == LocalRecords(records[..i]) + entry == Flatten(pieces + [entry])
  {
    hide Zip.Writable, Zip.LocalRecord;
    assert records[..i + 1] == records[..i] + [records[i]];
    assert records[..i + 1][..i] == records[..i];
    FlattenSnoc(pieces, entry);
  }

  /** Rebuilds the files one by one, sending each record as it is done. */
  method SendFiles(provider: ChunkFetcherProvider, world: WorldReconstructor, descs: seq<FileDescription>,
                   ghost files: seq<NamedFile>)
    returns (r: Result)
    requires provider.Valid() && world.Valid() && world.zip.front == [] && world.zip.files == []
    requires descs == Descriptions(provider.h, files) && AllHeld(provider.h, provider.server, files)
    modifies provider, world, world.zip
    ensures provider.Valid() && world.Valid()
    ensures provider.Reports(!r.FetchFailed?) && (old(provider.Known()) ==> provider.Known())
    ensures !r.Refused?
    ensures var records := Records(world.codecs, world.zip.table, files);
            && (r.NotWritable? ==> exists x :: x in records && !Zip.Writable(x))
            && (r.Sent? ==>
                  && (forall x :: x in records ==> Zip.Writable(x))
                  && world.zip.files == records && world.zip.front == LocalRecords(records) == Flatten(r.pieces))
  {
    hide Authentic, Succeeds, AllHeld, FileRecord, Zip.Writable, Zip.LocalRecord, LocalRecords, Flatten, Describe;
    hide Zip.Indexed, Dedup.HashConsistent, Genuine, Crc32.TopsPermuted, Crc32.Update;
    NoRecords();
    var pieces: seq<bytes> := [];
    ghost var records := Records(world.codecs, world.zip.table, files);
    for i := 0 to |descs|
      invariant provider.Valid() && world.Valid() && provider.Reports(true) &&
                  (old(provider.Known()) ==> provider.Known())
      invariant forall x :: x in records[..i] ==> Zip.Writable(x)
      invariant world.zip.files == records[..i] && world.zip.front == LocalRecords(records[..i]) == Flatten(pieces)
    {
      assert descs[i] == Describe(provider.h, files[i]);
      var status, data := FetchFile(provider, descs[i], files[i], i, files);
      if status != Fetched {
        return FetchFailed(status);
      }
      var entry := world.ReconstructWorldFile(descs[i].name, FactorioFile(descs[i].fileType, data));
      DescribesRecord(provider.h, world.codecs, world.zip.table, files[i], descs[i]);
      if entry.None? {
        assert records[i] in records;
        return NotWritable;
      }
      NextRecord(records, i, pieces, entry.value);
      pieces := pieces + [entry.value];
    }
    assert records[..|descs|] == records;
    r := Sent(pieces);
  }

  /** Concatenates the chunks of one file. */
  method FetchFile(provider: ChunkFetcherProvider, desc: FileDescription, ghost f: NamedFile, ghost i: nat,
                   ghost files: seq<NamedFile>)
    returns (status: Fetch, data: bytes)
    requires provider.Valid() && AllHeld(provider.h, provider.server, files)
    requires i < |files| && f == files[i] && desc == Describe(provider.h, f)
    modifies provider
    ensures provider.Valid()
    ensures status == Fetched ==> data == f.file.data
    ensures provider.Reports(status == Fetched) && (old(provider.Known()) ==> provider.Known())
  {
    hide Authentic, Dedup.Reaches, Dedup.Finite, Dedup.Read, ChunkFetcherProvider.Smooth, ChunkFetcherProvider.Known;
    hide Dedup.MinimizedRoot, Dedup.StoredFor, DepthOf, Chunks, Dedup.Holds;
    HeldAbove(provider.h, provider.server, provider.content, files);
    FileReadsBack(provider.h, provider.server, f.file.data);
    FileReadsBack(provider.h, provider.content, f.file.data);
    var pieces;
    status, pieces := provider.Reconstruct(desc.chunkList.isLeaf, desc.chunkList.chunks,
      DepthOf(provider.h, f.file.data));
    data := Flatten(pieces);
  }

  // ----- Downloading it

  /** The game holds every block once, each from a reply of the block server to a run that brought it `stream`. */
  ghost predicate Downloaded(events: seq<BlockServer.Event>, received: seq<Block>, target: nat, aux: bytes,
                             stream: bytes) {
    && BlockServer.Legal(BlockServer.START, events) && BlockServer.Stream(events) == stream
    && (forall b :: b in received ==> b in BlockServer.Run(BlockServer.START, events).1)
    && Download.Inv(Download.Done(target, |aux|, received))
  }

  /** However requests, arrivals and reconstruction interleave, the blocks put together are what was sent. */
  lemma GameReceives(events: seq<BlockServer.Event>, received: seq<Block>, image: bytes, aux: bytes)
    requires FitsBlocks(|image|, |aux|) && Downloaded(events, received, |image|, aux, Layout(image, aux))
    ensures Download.Reassemble(received, |image|, |aux|) ==
            if Download.Sliceable(|image|, |aux|) then Download.Recovered(image, aux) else Download.BadSlice
  {
    hide BlockServer.Run, BlockServer.Stream, BlockServer.Legal, Download.Inv, Download.Reassemble, Layout, BlockAt;
    hide Download.Sliceable;
    BlockServer.RepliesAreBlocks(events);
    Download.DownloadRecovers(received, image, aux);
  }

  /** Every block the game asked for before the clean-up has been sent to it, as soon as everything has arrived. */
  lemma GameIsServed(before: seq<BlockServer.Event>, after: seq<BlockServer.Event>, image: bytes, aux: bytes, id: nat)
    requires FitsBlocks(|image|, |aux|) && id < Download.TotalBlocks(|image|, |aux|)
    requires BlockServer.Legal(BlockServer.START, before + after) && BlockServer.Request(id) in before
    requires !BlockServer.CleanedUp(before) && BlockServer.Stream(before) == Layout(image, aux)
    requires BlockServer.Stream(before + after) == Layout(image, aux)
    ensures (id + 1) * BLOCK <= |Layout(image, aux)|
    ensures Block(id, BlockAt(Layout(image, aux), id)) in BlockServer.Run(BlockServer.START, before + after).1
  {
    hide BlockServer.Run, BlockServer.Stream, BlockServer.Legal, BlockServer.CleanedUp;
    hide Layout, BlockAt, Download.TotalBlocks;
    Download.TotalIsExact(image, aux);
    BlockServer.CompleteStreamIsServed(before, after, id);
  }

  /** `image` is an archive of the announced size and checksum, whose files are intact and decode to `files`. */
  ghost predicate IsWorldOf(c: Codecs, table: Crc32.Table, files: seq<NamedFile>, aux: bytes, target: nat, crc: Word,
                            image: bytes) {
    && |image| == target && Crc32.Checksum(table, image + aux) == crc
    && var records := Zip.ReadArchive(image);
       && records.Some? && Extract(c, table, records.value).Some?
       && DecodeFiles(c, Extract(c, table, records.value).value) == Some(files)
  }

  /** What the game puts together is the auxiliary data and such an archive, if the reader's slices stay below 2^32. */
  ghost predicate Arrives(c: Codecs, table: Crc32.Table, files: seq<NamedFile>, aux: bytes, target: nat, crc: Word,
                          received: seq<Block>) {
    exists image :: IsWorldOf(c, table, files, aux, target, crc, image) &&
      Download.Reassemble(received, target, |aux|) ==
      if Download.Sliceable(target, |aux|) then Download.Recovered(image, aux) else Download.BadSlice
  }

  /** What was delivered arrives, with the files of the original archive. */
  lemma WorldSurvives(c: Codecs, table: Crc32.Table, original: seq<ArchiveFile>, aux: bytes, target: nat, crc: Word,
                      stream: bytes, events: seq<BlockServer.Event>, received: seq<Block>)
    requires Invertible(c) && DecodeFiles(c, original).Some?
    requires Delivers(table, Records(c, table, DecodeFiles(c, original).value), aux, target, crc, stream)
    requires Downloaded(events, received, target, aux, stream)
    ensures Arrives(c, table, DecodeFiles(c, original).value, aux, target, crc, received)
  {
    hide Downloaded, Download.Reassemble, Layout, Zip.ReadArchive;
    hide Records, Extract, DecodeFiles, Invertible, Crc32.Checksum;
    hide Download.Sliceable;
    var image := stream[..target];
    GameReceives(events, received, image, aux);
    FilesSurvive(c, table, original);
    assert IsWorldOf(c, table, DecodeFiles(c, original).value, aux, target, crc, image);
  }
}
