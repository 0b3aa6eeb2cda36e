/** From the game server's packets to the game's blocks: every part of the way, one after the other. */
module EndToEnd {
  import opened Bytes
  import opened Word32
  import opened ChunkLists
  import opened Provider
  import opened World
  import opened Blocks
  import opened Transfer
  import Crc32
  import RevCrc
  import Dedup
  import Download
  import Zip

  /** The map with every string of `s` under its hash. */
  ghost function StoreOf(h: Hash, s: set<bytes>): map<Key, bytes>
    requires Dedup.CollisionFree(h, s)
  {
    map x | x in s :: h(x) := x
  }

  /** Without collisions, what chunking inserts into an empty map is determined by the strings. */
  lemma InsertedIsStore(h: Hash, s: set<bytes>, m: map<Key, bytes>)
    requires Dedup.Inserted(h, map[], s, m) && Dedup.CollisionFree(h, s)
    ensures m == StoreOf(h, s) && Dedup.Holds(h, m, s) && Dedup.HashConsistent(h, m)
  {
    Dedup.InsertedHolds(h, map[], s, m);
  }

  /** The server proxy over a whole run of packets. */
  method DownloadWorld(checked: bool, packets: seq<Download.Packet>) returns (phase: Download.Phase)
    ensures phase == Download.Run(Download.WaitingForWorld(checked), packets)
  {
    hide Download.Run, Download.OnPacket, Download.Inv;
    var proxy := new Download.ServerProxyState(checked);
    NoPackets(checked);
    ghost var start := Download.WaitingForWorld(checked);
    for i := 0 to |packets|
      invariant fresh(proxy) && proxy.Valid() && proxy.phase == Download.Run(start, packets[..i])
    {
      assert packets[..i + 1] == packets[..i] + [packets[i]];
      Download.RunSnoc(start, packets[..i], packets[i]);
      var resent, requested := proxy.OnPacketFromServer(packets[i]);
    }
    assert packets[..|packets|] == packets;
    phase := proxy.phase;
  }

  lemma NoPackets(checked: bool)
    ensures Download.Run(Download.WaitingForWorld(checked), []) == Download.WaitingForWorld(checked)
  {}

  /**
   * `content` is every chunk there is, under its hash, and everything stored for the files is among it. So no two of
   * these strings collide, and the caches and checked replies that the client meets are genuine.
   */
  ghost predicate Honest(h: Hash, content: map<Key, bytes>, files: seq<NamedFile>, env: nat -> Round) {
    && Dedup.HashConsistent(h, content) && Dedup.Holds(h, content, AllStored(h, files))
    && forall n :: Authentic(h, content, env(n))
  }

  lemma HonestMeansNoCollision(h: Hash, content: map<Key, bytes>, s: set<bytes>)
    requires Dedup.Holds(h, content, s)
    ensures Dedup.CollisionFree(h, s) && Submap(StoreOf(h, s), content)
  {}

  /** Every round that the client made succeeded. */
  ghost predicate AllSucceed(content: map<Key, bytes>, env: nat -> Round, turns: seq<Turn>) {
    forall t :: t in turns ==> Succeeds(content, env(t.round), t)
  }

  /** The client requested nothing but what the server stores for the files. */
  ghost predicate OnlyStored(h: Hash, files: seq<NamedFile>, turns: seq<Turn>)
    requires Dedup.CollisionFree(h, AllStored(h, files))
  {
    forall t, k :: t in turns && k in t.batch ==> k in StoreOf(h, AllStored(h, files))
  }

  /** Whatever the game downloads from what was sent is a world with the same files. */
  ghost predicate AlwaysArrives(c: Codecs, files: seq<NamedFile>, aux: bytes, target: nat, crc: Word, stream: bytes) {
    forall events, received :: Downloaded(events, received, target, aux, stream) ==>
      Arrives(c, Crc32.IsoHdlc(), files, aux, target, crc, received)
  }

  /**
   * What the client makes of `files`: it requests only what the server has, it fetches them all exactly if all its
   * rounds succeed, it then sends them exactly when they fit the announced size, and what it sends always arrives.
   */
  ghost predicate Ships(h: Hash, content: map<Key, bytes>, c: Codecs, files: seq<NamedFile>, aux: bytes,
                        env: nat -> Round, target: nat, crc: Word, checked: bool, r: Result, turns: seq<Turn>)
    requires Honest(h, content, files, env)
  {
    HonestMeansNoCollision(h, content, AllStored(h, files));
    var fits := Fits(Records(c, Crc32.IsoHdlc(), files), aux, target, checked);
    && OnlyStored(h, files, turns)
    && (AllSucceed(content, env, turns) <==> !r.FetchFailed?)
    && (!r.FetchFailed? ==> (r.Sent? && FitsBlocks(target, |aux|) <==> fits))
    && (checked && r.Sent? ==> fits)
    && (r.Sent? && fits ==> AlwaysArrives(c, files, aux, target, crc, Flatten(r.pieces)))
  }

  lemma DeliveredAlwaysArrives(c: Codecs, unzip: Unzip, world: bytes, aux: bytes, target: nat, crc: Word, stream: bytes)
    requires Invertible(c) && FilesOf(c, unzip, world).Some?
    requires var records := Records(c, Crc32.IsoHdlc(), FilesOf(c, unzip, world).value);
             Delivers(Crc32.IsoHdlc(), records, aux, target, crc, stream)
    ensures AlwaysArrives(c, FilesOf(c, unzip, world).value, aux, target, crc, stream)
  {
    hide Delivers, Downloaded, Arrives, Invertible, Records, DecodeFiles;
    var files := FilesOf(c, unzip, world).value;
    forall events, received | Downloaded(events, received, target, aux, stream)
      ensures Arrives(c, Crc32.IsoHdlc(), files, aux, target, crc, received)
    {
      WorldSurvives(c, Crc32.IsoHdlc(), unzip(world).value, aux, target, crc, stream, events, received);
    }
  }

  /** Takes the archive apart on the server and rebuilds it on the client. */
  method ShipWorld(h: Hash, ghost content: map<Key, bytes>, c: Codecs, unzip: Unzip, world: bytes, aux: bytes,
                   env: nat -> Round, target: nat, crc: Word, checked: bool)
    returns (r: Option<Result>, ghost turns: seq<Turn>)
    requires Invertible(c) && (FilesOf(c, unzip, world).Some? ==>
               Honest(h, content, FilesOf(c, unzip, world).value, env))
    ensures r.Some? <==> FilesOf(c, unzip, world).Some?
    ensures r.Some? ==>
              Ships(h, content, c, FilesOf(c, unzip, world).value, aux, env, target, crc, checked, r.value, turns)
  {
    hide Authentic, Succeeds, Invertible, FilesOf, AllStored;
    hide Dedup.Inserted, Dedup.Holds, Dedup.CollisionFree, Descriptions, Records;
    hide Fits, Delivers, AlwaysArrives, AllHeld;
    hide Crc32.TopsPermuted, Crc32.IsoHdlc, StoreOf, Dedup.HashConsistent, Submap;
    var taken := DeconstructWorld(h, c, unzip, world, aux);
    if taken.None? {
      return None, [];
    }
    var (desc, chunks) := taken.value;
    ghost var files := FilesOf(c, unzip, world).value;
    HonestMeansNoCollision(h, content, AllStored(h, files));
    InsertedIsStore(h, AllStored(h, files), chunks);
    AllStoredHeld(h, chunks, files);
    var provider := new ChunkFetcherProvider(h, content, chunks, env);
    Crc32.IsoHdlcTopsPermuted();
    var rev := new RevCrc.ReverseTable(Crc32.IsoHdlc());
    var result := TransferWorldData(provider, rev, Crc32.IsoHdlc(), c, desc, target, crc, checked, files);
    if result.Sent? && FitsBlocks(target, |aux|) {
      DeliveredAlwaysArrives(c, unzip, world, aux, target, crc, Flatten(result.pieces));
    }
    FittingFitsBlocks(Records(c, Crc32.IsoHdlc(), files), aux, target, checked);
    r, turns := Some(result), provider.turns;
  }

  lemma FittingFitsBlocks(records: seq<Zip.Stored>, aux: bytes, target: nat, checked: bool)
    ensures Fits(records, aux, target, checked) ==> FitsBlocks(target, |aux|)
  {}

  /**
   * The whole way of `world` and `aux`, from the packets of the game server to the blocks that the game asks for.
   * Nothing is shipped exactly when the download did not end, cannot be sliced or cannot be read.
   */
  method CarryWorld(h: Hash, ghost content: map<Key, bytes>, c: Codecs, unzip: Unzip, packets: seq<Download.Packet>,
                    env: nat -> Round, target: nat, crc: Word, checked: bool, ghost world: bytes, ghost aux: bytes)
    returns (r: Option<Result>, ghost turns: seq<Turn>)
    requires FitsBlocks(|world|, |aux|) && Download.Announce(packets, |world|, |aux|)
    requires Download.GenuineBlocks(packets, Layout(world, aux)) && Invertible(c)
    requires FilesOf(c, unzip, world).Some? ==> Honest(h, content, FilesOf(c, unzip, world).value, env)
    ensures r.Some? <==>
            && Download.Run(Download.WaitingForWorld(checked), packets).Done? && Download.Sliceable(|world|, |aux|)
            && FilesOf(c, unzip, world).Some?
    ensures r.Some? ==>
              Ships(h, content, c, FilesOf(c, unzip, world).value, aux, env, target, crc, checked, r.value, turns)
  {
    hide Invertible, FilesOf, Honest, Ships;
    hide Download.Run, Download.Reassemble, Download.GenuineBlocks, Layout, Download.Sliceable;
    var phase := DownloadWorld(checked, packets);
    if !phase.Done? {
      return None, [];
    }
    Download.RunIsAnnounced(Download.WaitingForWorld(checked), packets, |world|, |aux|);
    Download.FinishedRunsRecover(checked, packets, world, aux);
    var recovered := Download.Reassemble(phase.received, phase.worldSize, phase.auxSize);
    if !recovered.Recovered? {
      return None, [];
    }
    r, turns := ShipWorld(h, content, c, unzip, recovered.world, recovered.aux, env, target, crc, checked);
  }
}
