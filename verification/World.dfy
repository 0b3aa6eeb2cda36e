/** Rebuilding the world archive on the client, to the announced size and checksum. */
module World {
  import opened Bytes
  import opened Word32
  import opened Crc32
  import opened RevCrc
  import opened Zip
  import opened Blocks

  datatype FileType = Normal | Zlib

  datatype FactorioFile = FactorioFile(fileType: FileType, data: bytes)

  /** The compression libraries. */
  datatype Codecs = Codecs(
    deflate: bytes -> bytes,
    inflate: bytes -> Option<bytes>,
    zlib: bytes -> bytes,
    unzlib: bytes -> Option<bytes>)

  /** Decompression undoes compression, for zlib up to the limit the server sets; it yields nothing longer. */
  ghost predicate Invertible(c: Codecs) {
    && (forall x :: c.inflate(c.deflate(x)) == Some(x))
    && (forall x :: |x| <= 20_000_000 ==> c.unzlib(c.zlib(x)) == Some(x))
    && (forall y :: c.unzlib(y).Some? ==> |c.unzlib(y).value| <= 20_000_000)
  }

  function LastSegment(name: bytes): bytes {
    if name == [] then []
    else if name[|name| - 1] == 47 then []
    else LastSegment(name[..|name| - 1]) + [name[|name| - 1]]
  }

  /** "level.dat" followed by digits only, in the last path segment. */
  predicate IsLevelName(name: bytes) {
    var level := [108, 101, 118, 101, 108, 46, 100, 97, 116];
    var segment := LastSegment(name);
    level <= segment && forall i :: |level| <= i < |segment| ==> 48 <= segment[i] <= 57
  }

  /** The bytes of an ASCII text. */
  function Ascii(s: string): bytes {
    seq(|s|, i requires 0 <= i < |s| => if s[i] < 128 as char then s[i] as bv8 else 0)
  }

  /** `name` is a level file in `dir`, of which only the number may vary. */
  ghost predicate IsLevelIn(name: bytes, dir: bytes, number: bytes) {
    && name == dir + Ascii("level.dat") + number
    && (dir == [] || dir[|dir| - 1] == Ascii("/")[0])
    && forall i :: 0 <= i < |number| ==> Ascii("0")[0] <= number[i] <= Ascii("9")[0]
  }

  lemma {:induction false} LastSegmentIs(name: bytes)
    ensures var segment := LastSegment(name);
            && |segment| <= |name| && name[|name| - |segment|..] == segment && 47 !in segment
            && (|segment| < |name| ==> name[|name| - |segment| - 1] == 47)
  {
    if name != [] && name[|name| - 1] != 47 {
      LastSegmentIs(name[..|name| - 1]);
    }
  }

  lemma {:induction false} LastSegmentOf(dir: bytes, segment: bytes)
    requires 47 !in segment && (dir == [] || dir[|dir| - 1] == 47)
    ensures LastSegment(dir + segment) == segment
    decreases |segment|
  {
    if segment == [] {
      assert dir + segment == dir;
    } else {
      var n := |segment| - 1;
      LastSegmentOf(dir, segment[..n]);
      assert (dir + segment)[..|dir + segment| - 1] == dir + segment[..n];
    }
  }

  lemma AsciiText()
    ensures Ascii("level.dat") == [108, 101, 118, 101, 108, 46, 100, 97, 116]
    ensures Ascii("/") == [47] && Ascii("0") == [48] && Ascii("9") == [57]
  {}

  /** The level files are exactly those called "level.dat" and a number, or no number, in whatever directory. */
  lemma LevelNames(name: bytes)
    ensures IsLevelName(name) <==> exists dir, number :: IsLevelIn(name, dir, number)
  {
    hide IsLevelName, IsLevelIn;
    if IsLevelName(name) { LevelIsIn(name); }
    if dir, number :| IsLevelIn(name, dir, number) { InIsLevel(name, dir, number); }
  }

  lemma LevelIsIn(name: bytes)
    requires IsLevelName(name)
    ensures exists dir, number :: IsLevelIn(name, dir, number)
  {
    hide LastSegment, Ascii;
    AsciiText();
    LastSegmentIs(name);
    var segment, level := LastSegment(name), Ascii("level.dat");
    var dir, number := name[..|name| - |segment|], segment[|level|..];
    assert segment == level + number && name == dir + segment && name == dir + level + number;
    assert IsLevelIn(name, dir, number);
  }

  lemma InIsLevel(name: bytes, dir: bytes, number: bytes)
    requires IsLevelIn(name, dir, number)
    ensures IsLevelName(name)
  {
    hide LastSegment, Ascii;
    AsciiText();
    var level := Ascii("level.dat");
    var segment := level + number;
    assert forall i :: 0 <= i < |segment| ==> segment[i] == if i < 9 then level[i] else number[i - 9];
    LastSegmentOf(dir, segment);
    assert dir + segment == name;
  }

  function DecodeFile(c: Codecs, name: bytes, data: bytes): Option<FactorioFile> {
    if IsLevelName(name) then
      match c.unzlib(data)
      case None => None
      case Some(x) => Some(FactorioFile(Zlib, x))
    else Some(FactorioFile(Normal, data))
  }

  function EncodeFile(c: Codecs, f: FactorioFile): bytes {
    match f.fileType
    case Normal => f.data
    case Zlib => c.zlib(f.data)
  }

  /** The record `reconstruct_world_file` stores: zlib files as they are, others deflated. */
  function FileRecord(c: Codecs, table: Table, name: bytes, f: FactorioFile): Stored {
    var data := EncodeFile(c, f);
    ToStore(table, name, data, if f.fileType == Normal then Some(c.deflate(data)) else None)
  }

  /** A reader's view of a stored file: unpacked, and checked against its size and checksum. */
  function Unpack(c: Codecs, table: Table, s: Stored): Option<bytes> {
    var data := if s.meta.compression == 8 then c.inflate(s.payload) else Some(s.payload);
    if data.Some? && |data.value| == s.meta.uncompressedSize && Checksum(table, data.value) == s.meta.crc
    then data
    else None
  }

  /**
   * The stored record of a file unpacks and decodes to that file. Level files are stored as their zlib stream, all
   * others are deflated.
   */
  lemma FileSurvives(c: Codecs, table: Table, name: bytes, f: FactorioFile)
    requires Invertible(c) && (f.fileType == Zlib <==> IsLevelName(name))
    requires f.fileType == Zlib ==> |f.data| <= 20_000_000
    ensures var data := Unpack(c, table, FileRecord(c, table, name, f));
            data.Some? && DecodeFile(c, name, data.value) == Some(f)
    ensures var record := FileRecord(c, table, name, f);
            && record.meta.name == name
            && if IsLevelName(name) then record.payload == c.zlib(f.data) && record.meta.compression == 0
               else record.payload == c.deflate(f.data) && record.meta.compression == 8
  {
    hide Checksum, IsLevelName;
    assert c.inflate(c.deflate(EncodeFile(c, f))) == Some(EncodeFile(c, f));
  }

  datatype Final = Finished(output: bytes) | TooBig | Overflow

  /** What the client receives: an archive of the announced size and checksum, and `aux`, in whole blocks. */
  ghost predicate IsWorld(table: Table, front: bytes, files: seq<Stored>, aux: bytes, target: nat, crc: Word,
                          output: bytes) {
    && target <= U32_LIMIT - BLOCK && |aux| <= U32_LIMIT - BLOCK && |front| <= target <= |front + output|
    && var image := (front + output)[..target];
       && front + output == Layout(image, aux)
       && Checksum(table, image + aux) == crc
       && ReadArchive(image) == Some(files)
  }

  /** The archive before it is aligned: of the announced size and checksum, with all files. */
  ghost predicate IsImage(table: Table, front: bytes, files: seq<Stored>, aux: bytes, target: nat, crc: Word,
                          image: bytes) {
    && |image| == target && front <= image
    && Checksum(table, image + aux) == crc
    && ReadArchive(image) == Some(files)
  }

  /** The directory does not fit its fields: too many entries, or too far behind. */
  predicate TooManyForZip(es: seq<ZipEntry>, target: nat) {
    || |es| >= U16_LIMIT || DirectorySize(es) >= U32_LIMIT
    || target - DirectorySize(es) - END_OF_CENTRAL_DIRECTORY_SIZE >= U32_LIMIT
  }

  /** The bytes from `i` to `j` are 0. */
  ghost predicate AllZero(s: bytes, i: nat, j: int) {
    j <= |s| && forall k :: i <= k < j ==> s[k] == 0
  }

  class WorldReconstructor {
    const codecs: Codecs
    const zip: ZipWriter
    const rev: ReverseTable
    var crc: Word

    ghost predicate Valid()
      reads this, zip, rev, rev.slots
    {
      && zip.Valid() && rev.Valid() && TopsPermuted(rev.table) && rev.table == zip.table
      && crc == Update(zip.table, ONES, zip.front)
    }

    constructor (codecs: Codecs, rev: ReverseTable, table: Table)
      requires rev.Valid() && rev.table == table && TopsPermuted(table)
      ensures Valid() && zip.front == [] && zip.files == [] && fresh(zip)
      ensures this.codecs == codecs && this.rev == rev && zip.table == table
    {
      this.codecs := codecs;
      this.rev := rev;
      zip := new ZipWriter(table);
      crc := ONES;
    }

    method ReconstructWorldFile(name: bytes, f: FactorioFile) returns (entry: Option<bytes>)
      requires Valid()
      modifies this, zip
      ensures Valid()
      ensures var s := FileRecord(codecs, zip.table, name, f);
              if Zip.Writable(s) then
                && entry == Some(LocalRecord(s))
                && zip.front == old(zip.front) + LocalRecord(s) && zip.files == old(zip.files) + [s]
              else entry.None? && zip.front == old(zip.front) && zip.files == old(zip.files)
    {
      hide LocalRecord, ToStore, Indexed;
      var fileData := EncodeFile(codecs, f);
      var packed := match f.fileType case Normal => Some(codecs.deflate(fileData)) case Zlib => None;
      entry := zip.EncodeFile(name, fileData, packed);
      if entry.Some? {
        UpdateConcat(zip.table, ONES, old(zip.front), entry.value);
        crc := Crc32.Update(zip.table, crc, entry.value);
      }
    }

    /**
     * The size check is the only refusal inside the limits of the formats. Otherwise neither the size, the checksum nor
     * the alignment assertion can fail. `checked` says that the build checks arithmetic for overflow.
     */
    method FinalizeWorld(aux: bytes, target: nat, targetCrc: Word, checked: bool) returns (r: Final)
      requires Valid()
      modifies this, zip
      ensures zip.files == old(zip.files)
      ensures r.TooBig? <==>
              |old(zip.front)| + DirectorySize(old(zip.entries)) + END_OF_CENTRAL_DIRECTORY_SIZE + 4 > target
      ensures r.Overflow? <==>
              && !r.TooBig?
              && (|| TooManyForZip(old(zip.entries), target)
                  || (checked && !FitsBuild(checked, target, |aux|))
                  || AlignedLength(target) < |old(zip.front)|)
      ensures r.Finished? ==>
                exists image :: IsImage(zip.table, old(zip.front), zip.files, aux, target, targetCrc, image) &&
                                old(zip.front) + r.output == Aligned(image, aux) &&
                                AllZero(image, |old(zip.front)|, target - DirectorySize(old(zip.entries)) - 26)
      ensures r.Finished? ==>
                (IsWorld(zip.table, old(zip.front), zip.files, aux, target, targetCrc, r.output) <==>
                 FitsBlocks(target, |aux|))
    {
      hide Indexed, IsDirectory, RevUpdate, Crc32.Update, IsWorld, AlignedLength, Checksum, ReadArchive, Aligned;
      ghost var front, entries := zip.front, zip.entries;
      var currentSize := zip.currentOffset;
      var footerSize := zip.CentralDirectorySize();
      var totalSize := currentSize + footerSize + 4;
      if totalSize > target {
        return TooBig;
      }
      var output := Zeros(target - totalSize);
      crc := Crc32.Update(zip.table, crc, output);
      zip.AdvanceOffset(|output| + 4, output + Zeros(4));
      var footer := zip.EncodeCentralDirectory();
      if footer.None? {
        return Overflow;
      }
      var forged := Forge(footer.value, aux, targetCrc);
      PaddedArchive(front, output, forged, entries, zip.files, footer.value);
      ForgedChecksum(zip.table, front, output, forged, footer.value, aux, targetCrc);
      output := output + forged + footer.value;
      assert currentSize + |output| == target;

      crc := Crc32.Update(zip.table, crc, forged);
      crc := Crc32.Update(zip.table, crc, footer.value);
      crc := Crc32.Update(zip.table, crc, aux);
      var finalCrc := Xor(crc, ONES);
      assert finalCrc == targetCrc;

      var aligned := AlignOutput(front, output, target, aux, checked);
      if aligned.None? {
        return Overflow;
      }
      assert AllZero(front + output, |front|, target - DirectorySize(entries) - 26);
      WorldIsLaidOut(zip.table, front, zip.files, aux, target, targetCrc, front + output, aligned.value);
      r := Finished(aligned.value);
    }

    /** The four bytes between the padding and the directory. */
    method Forge(footer: bytes, aux: bytes, targetCrc: Word) returns (forged: bytes)
      requires rev.Valid() && TopsPermuted(rev.table)
      ensures |forged| == 4
      ensures Crc32.Update(rev.table, crc, forged) ==
              RevUpdate(rev.table, RevUpdate(rev.table, Xor(targetCrc, ONES), aux), footer)
    {
      hide RevUpdate, Crc32.Update;
      var forwardCrc := Xor(crc, ONES);
      XorCancels(crc, ONES);
      var digest := new RevDigest(rev, targetCrc);
      digest.Add(aux);
      digest.Add(footer);
      forged := ForgeCrc(forwardCrc, digest);
    }

    /**
     * Fills up world and auxiliary data to whole blocks. `None` is an overflow that the build checks, or a length below
     * zero, which wraps around to one that cannot be allocated.
     */
    static method AlignOutput(ghost front: bytes, output: bytes, target: nat, aux: bytes, checked: bool)
      returns (r: Option<bytes>)
      requires |front| + |output| == target
      ensures r.None? <==> (checked && !FitsBuild(checked, target, |aux|)) || AlignedLength(target) < |front|
      ensures r.Some? ==> front + r.value == Aligned(front + output, aux) && |front + r.value| % BLOCK == 0
    {
      hide AlignedLength, BlockCount, SumOverflows, Resize;
      CheckedExact(target);
      CheckedExact(|aux|);
      if checked && (SumOverflows(target) || SumOverflows(|aux|)) {
        return None;
      }
      var worldAligned := AlignedLength(target);
      var auxAligned := AlignedLength(|aux|);
      if checked && (worldAligned < target || auxAligned < |aux|) {
        return None;
      }
      if worldAligned + |output| < target {
        return None;
      }
      var buf := Resize(output, worldAligned + |output| - target);
      buf := buf + aux;
      buf := Resize(buf, |buf| + auxAligned - |aux|);
      ResizeBoth(front, output, aux, worldAligned, auxAligned);
      WholeBlocks(target);
      WholeBlocks(|aux|);
      r := Some(buf);
    }
  }

  /** Resizing at least a front resizes only what is behind it. */
  lemma ResizeBack(front: bytes, s: bytes, n: nat)
    requires n >= |front|
    ensures Resize(front + s, n) == front + Resize(s, n - |front|)
  {}

  lemma ResizeBoth(front: bytes, output: bytes, aux: bytes, n: nat, m: nat)
    requires n >= |front|
    ensures front + Resize(Resize(output, n - |front|) + aux, n - |front| + m) ==
            Resize(front + output, n) + Resize(aux, m)
  {
    hide Resize;
    var world := Resize(output, n - |front|);
    ResizeBack(front, output, n);
    ResizeBack(world, aux, |world| + m);
    assert front + (world + Resize(aux, m)) == front + world + Resize(aux, m);
  }

  lemma AlignedToNothing()
    ensures AlignedLength(U32_LIMIT - 1) == 0 && AlignedLength(0) == 0
  {}

  /**
   * A world that fails: just below 2^32 bytes are announced for an archive without files. A build without overflow
   * checks finishes, and sends nothing at all.
   */
  method OverflowingWorld(codecs: Codecs, rev: ReverseTable, table: Table, crc: Word) returns (r: Final)
    requires rev.Valid() && rev.table == table && TopsPermuted(table)
    ensures r == Finished([]) && !IsWorld(table, [], [], [], U32_LIMIT - 1, crc, [])
  {
    hide ReadArchive, Checksum, IsWorld, AlignedLength, Aligned;
    AlignedToNothing();
    var world := new WorldReconstructor(codecs, rev, table);
    assert world.zip.entries == [];
    r := world.FinalizeWorld([], U32_LIMIT - 1, crc, false);
    var output := [] + r.output;
    assert |output| == 0 && r.output == [];
  }

  lemma ForgedChecksum(table: Table, front: bytes, padding: bytes, forged: bytes, footer: bytes, aux: bytes,
                       target: Word)
    requires TopsPermuted(table)
    requires Crc32.Update(table, Crc32.Update(table, Crc32.Update(table, ONES, front), padding), forged) ==
             RevUpdate(table, RevUpdate(table, Xor(target, ONES), aux), footer)
    ensures var crc := Crc32.Update(table, Crc32.Update(table, ONES, front), padding);
            Crc32.Update(table, Crc32.Update(table, Crc32.Update(table, crc, forged), footer), aux) == Xor(target, ONES)
    ensures Xor(Xor(target, ONES), ONES) == target
    ensures Checksum(table, front + (padding + forged + footer) + aux) == target
  {
    hide Crc32.Update, RevUpdate;
    UpdateUndoesRevUpdate(table, RevUpdate(table, Xor(target, ONES), aux), footer);
    UpdateUndoesRevUpdate(table, Xor(target, ONES), aux);
    XorCancels(target, ONES);
    UpdateConcat(table, ONES, front + (padding + forged + footer), aux);
    UpdateConcat(table, ONES, front, padding + forged + footer);
    UpdateConcat(table, Crc32.Update(table, ONES, front), padding + forged, footer);
    UpdateConcat(table, Crc32.Update(table, ONES, front), padding, forged);
  }

  /** Padding and forged bytes between the records and the directory do not disturb the archive. */
  lemma PaddedArchive(front: bytes, padding: bytes, forged: bytes, es: seq<ZipEntry>, files: seq<Stored>, footer: bytes)
    requires Indexed(front, es, files) && IsDirectory(es, |front| + |padding| + |forged|, footer)
    ensures ReadArchive(front + (padding + forged + footer)) == Some(files)
  {
    hide Indexed, IsDirectory, ReadArchive;
    var gap := padding + forged;
    IndexedExtends(front, gap, es, files);
    DirectoryFinds(front + gap, es, files, footer);
    assert front + gap + footer == front + (padding + forged + footer);
  }

  lemma WorldIsLaidOut(table: Table, front: bytes, files: seq<Stored>, aux: bytes, target: nat, crc: Word,
                       image: bytes, output: bytes)
    requires IsImage(table, front, files, aux, target, crc, image) && front + output == Aligned(image, aux)
    ensures IsWorld(table, front, files, aux, target, crc, output) <==> FitsBlocks(target, |aux|)
  {
    hide ReadArchive, Checksum, Aligned;
    if FitsBlocks(target, |aux|) {
      AlignedIsLayout(image, aux);
      LayoutSlices(image, aux);
    }
  }
}
