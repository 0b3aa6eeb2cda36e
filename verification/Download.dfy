/** The server proxy's download of a world from the game server, over packets that may be lost, doubled or reordered. */
module Download {
  import opened Bytes
  import opened Blocks
  import opened OrderedSets

  const INFLIGHT_LIMIT: nat := 16

  /** Block ids still to be requested, requested, and received. */
  datatype Progress = Progress(queue: set<nat>, inflight: set<nat>, received: seq<Block>)

  /** `checked` says that the build checks arithmetic for overflow; `Crashed` is the panic of such a check. */
  datatype Phase =
    | WaitingForWorld(checked: bool)
    | Downloading(worldSize: nat, auxSize: nat, p: Progress)
    | Done(worldSize: nat, auxSize: nat, received: seq<Block>)
    | Crashed

  /** What a packet from the game server amounts to; `late` says that 100 ms passed since the last new block. */
  datatype Packet =
    | MapReady(worldSize: nat, auxSize: nat, late: bool)
    | TransferBlock(block: Block)
    | BadTransferBlock
    | Other(late: bool)

  function TotalBlocks(worldSize: nat, auxSize: nat): nat {
    (BlockCount(worldSize) + BlockCount(auxSize)) % U32_LIMIT
  }

  function Ids(n: nat): (ids: set<nat>)
    ensures forall i :: i in ids <==> 0 <= i < n
  {
    if n == 0 then {} else Ids(n - 1) + {n - 1}
  }

  /** Requests the lowest queued ids until 16 are in flight. */
  ghost function Refill(p: Progress): (r: (Progress, seq<nat>))
    decreases |p.queue|
  {
    if |p.inflight| >= INFLIGHT_LIMIT || p.queue == {} then (p, [])
    else
      var id := Smallest(p.queue);
      var rest := Refill(p.(queue := p.queue - {id}, inflight := p.inflight + {id}));
      (rest.0, [id] + rest.1)
  }

  lemma RefillStep(p: Progress, id: nat)
    requires |p.inflight| < INFLIGHT_LIMIT && id in p.queue && forall x :: x in p.queue ==> id <= x
    ensures var rest := Refill(p.(queue := p.queue - {id}, inflight := p.inflight + {id}));
            Refill(p) == (rest.0, [id] + rest.1)
  {
    assert id == Smallest(p.queue);
  }

  lemma RefillStops(p: Progress)
    requires |p.inflight| >= INFLIGHT_LIMIT || p.queue == {}
    ensures Refill(p) == (p, [])
  {}

  ghost function Begin(worldSize: nat, auxSize: nat): (Progress, seq<nat>) {
    Refill(Progress(Ids(TotalBlocks(worldSize, auxSize)), {}, []))
  }

  function Accept(p: Progress, b: Block): Progress {
    if b.id in p.inflight then p.(inflight := p.inflight - {b.id}, received := p.received + [b])
    else if b.id in p.queue then p.(queue := p.queue - {b.id}, received := p.received + [b])
    else p
  }

  /** The next phase and the block ids requested; re-requests of everything in flight are all of `inflight`. */
  datatype Reaction = Reaction(phase: Phase, resent: set<nat>, requested: seq<nat>)

  ghost function OnPacket(phase: Phase, packet: Packet): Reaction {
    match phase
    case WaitingForWorld(checked) =>
      if packet.MapReady? && checked && (SumOverflows(packet.worldSize) || SumOverflows(packet.auxSize)) then
        Reaction(Crashed, {}, [])
      else if packet.MapReady? then
        var (p, ids) := Begin(packet.worldSize, packet.auxSize);
        Reaction(Downloading(packet.worldSize, packet.auxSize, p), {}, ids)
      else Reaction(phase, {}, [])
    case Downloading(w, a, p) =>
      if packet.BadTransferBlock? then Reaction(phase, {}, [])
      else if packet.TransferBlock? then
        var p' := Accept(p, packet.block);
        if p'.queue == {} && p'.inflight == {} then Reaction(Done(w, a, p'.received), {}, [])
        else
          var (p'', ids) := Refill(p');
          Reaction(Downloading(w, a, p''), {}, ids)
      else if packet.late then
        var (p', ids) := Refill(p);
        Reaction(Downloading(w, a, p'), p.inflight, ids)
      else Reaction(phase, {}, [])
    case Done(_, _, _) => Reaction(phase, {}, [])
    case Crashed => Reaction(phase, {}, [])
  }

  ghost function Run(phase: Phase, packets: seq<Packet>): Phase
    decreases |packets|
  {
    if packets == [] then phase else Run(OnPacket(phase, packets[0]).phase, packets[1..])
  }

  // ----- What every packet keeps

  function ReceivedIds(bs: seq<Block>): set<nat> {
    set b | b in bs :: b.id
  }

  ghost predicate DistinctIds(bs: seq<Block>) {
    forall i, j :: 0 <= i < j < |bs| ==> bs[i].id != bs[j].id
  }

  ghost predicate Splits(a: set<nat>, b: set<nat>, c: set<nat>, all: set<nat>) {
    a !! b && a !! c && b !! c && a + b + c == all
  }

  lemma SplitsMove(a: set<nat>, b: set<nat>, c: set<nat>, all: set<nat>, id: nat)
    requires Splits(a, b, c, all)
    ensures id in a ==> Splits(a - {id}, b + {id}, c, all)
    ensures id in a ==> Splits(a - {id}, b, c + {id}, all)
    ensures id in b ==> Splits(a, b - {id}, c + {id}, all)
  {
    assert id in a ==> (a - {id}) + (b + {id}) + c == all;
    assert id in a ==> (a - {id}) + b + (c + {id}) == all;
    assert id in b ==> a + (b - {id}) + (c + {id}) == all;
  }

  ghost predicate AllBefore(a: set<nat>, b: set<nat>) {
    forall x, y :: x in a && y in b ==> x < y
  }

  ghost predicate Increasing(ids: seq<nat>) {
    forall i, j :: 0 <= i < j < |ids| ==> ids[i] < ids[j]
  }

  /**
   * Queued, in-flight and received ids partition all ids, none is received twice, the window is respected, and ids are
   * requested in order.
   */
  ghost predicate Partition(p: Progress, total: nat) {
    && Splits(p.queue, p.inflight, ReceivedIds(p.received), Ids(total))
    && DistinctIds(p.received)
    && |p.inflight| <= INFLIGHT_LIMIT
    && AllBefore(p.inflight, p.queue)
  }

  /** The window is full, or nothing is left to request. */
  ghost predicate Full(p: Progress) {
    |p.inflight| == INFLIGHT_LIMIT || p.queue == {}
  }

  ghost predicate Inv(phase: Phase) {
    match phase
    case WaitingForWorld(_) => true
    case Downloading(w, a, p) =>
      && Partition(p, TotalBlocks(w, a)) && Full(p)
      && (p.queue == {} && p.inflight == {} ==> TotalBlocks(w, a) == 0)
    case Done(w, a, received) => DistinctIds(received) && ReceivedIds(received) == Ids(TotalBlocks(w, a))
    case Crashed => true
  }

  lemma {:induction false} RefillKeeps(p: Progress, total: nat)
    requires Partition(p, total)
    ensures var (p', ids) := Refill(p);
            && Partition(p', total) && Full(p')
            && p'.received == p.received && p'.queue <= p.queue && p.inflight <= p'.inflight
            && (forall id :: id in ids <==> id in p'.inflight && id !in p.inflight)
            && Increasing(ids)
            && (p'.queue == {} && p'.inflight == {} ==> p.queue == {} && p.inflight == {})
    decreases |p.queue|
  {
    hide Splits, DistinctIds, ReceivedIds, Ids, AllBefore, Increasing;
    if |p.inflight| >= INFLIGHT_LIMIT || p.queue == {} {
      IncreasingFirst(0, []);
    } else {
      var id := Smallest(p.queue);
      SplitsMove(p.queue, p.inflight, ReceivedIds(p.received), Ids(total), id);
      FirstInOrder(p.inflight, p.queue, id);
      var p1 := p.(queue := p.queue - {id}, inflight := p.inflight + {id});
      RefillKeeps(p1, total);
      RefilledFrom(p1, total);
      IncreasingFirst(id, Refill(p1).1);
    }
  }

  lemma FirstInOrder(a: set<nat>, b: set<nat>, id: nat)
    requires AllBefore(a, b) && id in b && forall x :: x in b ==> id <= x
    ensures AllBefore(a + {id}, b - {id})
  {}

  lemma IncreasingFirst(id: nat, ids: seq<nat>)
    ensures Increasing([])
    ensures Increasing(ids) && (forall x :: x in ids ==> id < x) ==> Increasing([id] + ids)
  {
    if Increasing(ids) && forall x :: x in ids ==> id < x {
      forall i, j | 0 <= i < j < |ids| + 1 ensures ([id] + ids)[i] < ([id] + ids)[j] {
        assert ids[j - 1] in ids;
      }
    }
  }

  /** What is requested was queued. */
  lemma RefilledFrom(p: Progress, total: nat)
    requires Partition(p, total) && Partition(Refill(p).0, total) && Refill(p).0.received == p.received
    ensures forall id :: id in Refill(p).0.inflight && id !in p.inflight ==> id in p.queue
  {
    hide Refill, ReceivedIds, DistinctIds, Ids;
  }

  lemma AcceptKeeps(p: Progress, b: Block, total: nat)
    requires Partition(p, total)
    ensures Partition(Accept(p, b), total) && DistinctIds(Accept(p, b).received)
    ensures Accept(p, b).queue == {} && Accept(p, b).inflight == {} ==> ReceivedIds(Accept(p, b).received) == Ids(total)
  {
    hide ReceivedIds, DistinctIds, Ids, Splits;
    ReceivedSnoc(p.received, b);
    SplitsMove(p.queue, p.inflight, ReceivedIds(p.received), Ids(total), b.id);
    NotYetReceived(p, total, b.id);
    NothingLeft(Accept(p, b), total);
  }

  lemma NotYetReceived(p: Progress, total: nat, id: nat)
    requires Partition(p, total)
    ensures id in p.queue || id in p.inflight ==> id !in ReceivedIds(p.received)
  {
    hide ReceivedIds, Ids;
  }

  lemma NothingLeft(p: Progress, total: nat)
    ensures Partition(p, total) && p.queue == {} && p.inflight == {} ==> ReceivedIds(p.received) == Ids(total)
  {
    hide ReceivedIds, Ids;
  }

  lemma ReceivedSnoc(bs: seq<Block>, b: Block)
    ensures ReceivedIds(bs + [b]) == ReceivedIds(bs) + {b.id}
    ensures DistinctIds(bs) && b.id !in ReceivedIds(bs) ==> DistinctIds(bs + [b])
  {
    assert forall x :: x in bs + [b] <==> x in bs || x == b;
    assert forall i :: 0 <= i < |bs| ==> bs[i] in bs;
  }

  lemma PacketKeeps(phase: Phase, packet: Packet)
    requires Inv(phase)
    ensures var r := OnPacket(phase, packet);
            && Inv(r.phase)
            && (r.phase.Downloading? ==>
                  && r.resent <= r.phase.p.inflight
                  && forall id :: id in r.requested ==> id in r.phase.p.inflight)
            && (!r.phase.Downloading? ==> r.resent == {} && r.requested == [])
  {
    hide Refill, Partition, Full, Accept, Ids, ReceivedIds, DistinctIds, BlockCount;
    match phase
    case WaitingForWorld(_) =>
      if packet.MapReady? {
        var total := TotalBlocks(packet.worldSize, packet.auxSize);
        var p := Progress(Ids(total), {}, []);
        StartPartition(total);
        RefillKeeps(p, total);
      }
    case Downloading(w, a, p) =>
      var total := TotalBlocks(w, a);
      if packet.TransferBlock? {
        AcceptKeeps(p, packet.block, total);
        RefillKeeps(Accept(p, packet.block), total);
      } else {
        RefillKeeps(p, total);
      }
    case Done(_, _, _) =>
    case Crashed =>
  }

  lemma StartPartition(total: nat)
    ensures Partition(Progress(Ids(total), {}, []), total)
    ensures Ids(total) == {} ==> total == 0
  {
    assert total > 0 ==> 0 in Ids(total);
  }

  /** Over every packet sequence, with loss, duplication and reordering, the invariant holds. */
  lemma {:induction false} RunKeeps(phase: Phase, packets: seq<Packet>)
    requires Inv(phase)
    ensures Inv(Run(phase, packets))
    decreases |packets|
  {
    hide Inv, OnPacket;
    if packets != [] {
      PacketKeeps(phase, packets[0]);
      RunKeeps(OnPacket(phase, packets[0]).phase, packets[1..]);
    }
  }

  /** A block already received is never requested again, and requests stay within the window. */
  lemma RequestsAreNew(phase: Phase, packet: Packet, id: nat)
    requires Inv(phase)
    requires var r := OnPacket(phase, packet); id in r.resent || id in r.requested
    ensures var r := OnPacket(phase, packet);
            && r.phase.Downloading? && id !in ReceivedIds(r.phase.p.received)
            && id < TotalBlocks(r.phase.worldSize, r.phase.auxSize)
            && |r.phase.p.inflight| <= 16
  {
    hide OnPacket, ReceivedIds, BlockCount;
    PacketKeeps(phase, packet);
    var p := OnPacket(phase, packet).phase.p;
    assert id in p.inflight;
  }

  /** While blocks are missing some request is out, so a timeout always has something to repeat. */
  lemma DownloadNeverStalls(phase: Phase)
    requires Inv(phase) && phase.Downloading?
    ensures phase.p.inflight == {} <==> TotalBlocks(phase.worldSize, phase.auxSize) == 0
  {
    hide ReceivedIds, BlockCount;
    if TotalBlocks(phase.worldSize, phase.auxSize) == 0 {
      assert Ids(0) == {};
    }
  }

  /** A late packet that is no transfer block. */
  predicate Repeats(packet: Packet) {
    (packet.MapReady? || packet.Other?) && packet.late
  }

  function InFlightIn(phase: Phase): set<nat> {
    if phase.Downloading? then phase.p.inflight else {}
  }

  /**
   * What each packet sends: in ascending order, once each, the ids that enter the window; and, if it is no transfer
   * block and is late, everything in flight again.
   */
  lemma PacketRequests(phase: Phase, packet: Packet)
    requires Inv(phase)
    ensures var r := OnPacket(phase, packet);
            && Increasing(r.requested)
            && (forall id :: id in r.requested <==> id in InFlightIn(r.phase) && id !in InFlightIn(phase))
            && r.resent == if Repeats(packet) then InFlightIn(phase) else {}
  {
    hide Refill, Partition, Full, Accept, Ids, ReceivedIds, DistinctIds, BlockCount;
    match phase
    case WaitingForWorld(_) =>
      if packet.MapReady? {
        var total := TotalBlocks(packet.worldSize, packet.auxSize);
        StartPartition(total);
        RefillKeeps(Progress(Ids(total), {}, []), total);
      }
    case Downloading(w, a, p) =>
      var total := TotalBlocks(w, a);
      if packet.TransferBlock? {
        AcceptKeeps(p, packet.block, total);
        var p' := Accept(p, packet.block);
        RefillKeeps(p', total);
        NotYetReceived(Refill(p').0, total, packet.block.id);
        AcceptedOnce(p, packet.block);
      } else {
        RefillKeeps(p, total);
      }
    case Done(_, _, _) =>
    case Crashed =>
  }

  lemma AcceptedOnce(p: Progress, b: Block)
    ensures var p' := Accept(p, b);
            if b.id in p.inflight then p'.inflight == p.inflight - {b.id} && b.id in ReceivedIds(p'.received)
            else p'.inflight == p.inflight
  {
    ReceivedSnoc(p.received, b);
  }

  /** The ids of the blocks not received. */
  ghost function Missing(phase: Phase): set<nat>
    requires phase.Downloading?
  {
    Ids(TotalBlocks(phase.worldSize, phase.auxSize)) - ReceivedIds(phase.p.received)
  }

  /** The 16 lowest of the missing ids, or all if there are fewer. */
  ghost predicate IsWindow(ids: set<nat>, missing: set<nat>) {
    ids <= missing && AllBefore(ids, missing - ids) && |ids| <= 16 && (|ids| == 16 || ids == missing)
  }

  /** What is in flight depends on what is missing alone: the 16 lowest ids, whatever was lost, doubled or reordered. */
  lemma WindowIsLowestMissing(phase: Phase)
    requires Inv(phase) && phase.Downloading?
    ensures IsWindow(phase.p.inflight, Missing(phase))
  {
    hide ReceivedIds, DistinctIds, Ids, BlockCount;
    assert Missing(phase) == phase.p.inflight + phase.p.queue;
    assert Missing(phase) - phase.p.inflight == phase.p.queue;
  }

  /**
   * In every run, a packet that is no transfer block changes nothing, and if it is late requests the 16 lowest missing
   * blocks again.
   */
  lemma LatePacketsRepeat(checked: bool, packets: seq<Packet>, packet: Packet)
    requires Run(WaitingForWorld(checked), packets).Downloading? && !packet.TransferBlock?
    ensures var phase := Run(WaitingForWorld(checked), packets);
            var r := OnPacket(phase, packet);
            && r.phase == phase && r.requested == []
            && if Repeats(packet) then IsWindow(r.resent, Missing(phase)) else r.resent == {}
  {
    hide Run, Missing, IsWindow, Partition, BlockCount;
    var phase := Run(WaitingForWorld(checked), packets);
    RunKeeps(WaitingForWorld(checked), packets);
    WindowIsLowestMissing(phase);
    RefillStops(phase.p);
  }

  /** A world of no blocks never requests anything, and any block ends its download. */
  lemma EmptyWorldRequestsNothing(phase: Phase, packet: Packet)
    requires Inv(phase) && phase.Downloading? && TotalBlocks(phase.worldSize, phase.auxSize) == 0
    ensures var r := OnPacket(phase, packet);
            && r.resent == {} && r.requested == [] && phase.p == Progress({}, {}, [])
            && r.phase == if packet.TransferBlock? then Done(phase.worldSize, phase.auxSize, []) else phase
  {
    hide BlockCount, ReceivedIds, DistinctIds;
    assert Ids(0) == {};
    CountReceived(phase.p, 0);
    RefillStops(phase.p);
  }

  /** Every packet answers a request that is in flight when it arrives, with the block that `content` gives. */
  ghost predicate AnswersInFlight(phase: Phase, packets: seq<Packet>, content: nat -> bytes)
    decreases |packets|
  {
    packets != [] ==>
      && phase.Downloading? && packets[0].TransferBlock?
      && packets[0].block.id in phase.p.inflight && packets[0].block.data == content(packets[0].block.id)
      && AnswersInFlight(OnPacket(phase, packets[0]).phase, packets[1..], content)
  }

  lemma MoreToReceive(p: Progress, total: nat)
    requires Partition(p, total) && p.inflight != {}
    ensures |p.received| < total
  {
    hide DistinctIds;
    DistinctCount(p.received);
    IdsCount(total);
    var got := ReceivedIds(p.received);
    hide ReceivedIds, Ids;
    assert Ids(total) == got + (p.queue + p.inflight);
    assert |Ids(total)| == |got| + |p.queue + p.inflight|;
    assert p.queue + p.inflight != {};
  }

  /** As long as requests in flight are answered, a download of any blocks ends. */
  lemma {:induction false} CanFinish(phase: Phase, content: nat -> bytes) returns (packets: seq<Packet>)
    requires Inv(phase) && phase.Downloading? && TotalBlocks(phase.worldSize, phase.auxSize) > 0
    ensures AnswersInFlight(phase, packets, content) && Run(phase, packets).Done?
    ensures forall p :: p in packets ==> p.TransferBlock? && p.block.data == content(p.block.id)
    decreases TotalBlocks(phase.worldSize, phase.auxSize) - |phase.p.received|
  {
    hide OnPacket, Inv, BlockCount, TotalBlocks;
    InFlight(phase);
    var id :| id in phase.p.inflight;
    var packet := TransferBlock(Block(id, content(id)));
    var next := OnPacket(phase, packet).phase;
    PacketKeeps(phase, packet);
    BlocksCount(phase, packet);
    RunOne(phase, packet);
    if next.Done? {
      packets := [packet];
    } else {
      SizesStay(phase, packet);
      var rest := CanFinish(next, content);
      packets := [packet] + rest;
      assert packets[1..] == rest;
    }
  }

  lemma InFlight(phase: Phase)
    requires Inv(phase) && phase.Downloading? && TotalBlocks(phase.worldSize, phase.auxSize) > 0
    ensures phase.p.inflight != {} && |phase.p.received| < TotalBlocks(phase.worldSize, phase.auxSize)
  {
    hide TotalBlocks, Partition;
    DownloadNeverStalls(phase);
    MoreToReceive(phase.p, TotalBlocks(phase.worldSize, phase.auxSize));
  }

  lemma RunOne(phase: Phase, packet: Packet)
    ensures Run(phase, [packet]) == OnPacket(phase, packet).phase
  {
    hide OnPacket;
    assert [packet][1..] == [];
    assert Run(phase, [packet]) == Run(OnPacket(phase, packet).phase, [packet][1..]);
  }

  lemma SizesStay(phase: Phase, packet: Packet)
    requires phase.Downloading? && OnPacket(phase, packet).phase.Downloading?
    ensures var next := OnPacket(phase, packet).phase;
            next.worldSize == phase.worldSize && next.auxSize == phase.auxSize
  {
    hide Refill;
  }

  /** Finishing happens once: nothing leaves the final phase, or a crash. */
  lemma {:induction false} DoneIsFinal(phase: Phase, packets: seq<Packet>)
    requires phase.Done? || phase.Crashed?
    ensures Run(phase, packets) == phase
    decreases |packets|
  {
    if packets != [] {
      DoneIsFinal(phase, packets[1..]);
    }
  }

  /** Every new block brings the end closer, and only the last one finishes. */
  lemma BlocksCount(phase: Phase, packet: Packet)
    requires Inv(phase) && phase.Downloading? && TotalBlocks(phase.worldSize, phase.auxSize) > 0
    ensures var r := OnPacket(phase, packet).phase;
            var isNew := packet.TransferBlock? &&
              (packet.block.id in phase.p.inflight || packet.block.id in phase.p.queue);
            var received := if r.Done? then r.received else r.p.received;
            && (r.Done? || r.Downloading?)
            && received == (if isNew then phase.p.received + [packet.block] else phase.p.received)
            && (r.Done? <==> isNew && |received| == TotalBlocks(phase.worldSize, phase.auxSize))
  {
    hide Refill, BlockCount, Partition, ReceivedIds, DistinctIds, Ids;
    var p, total := phase.p, TotalBlocks(phase.worldSize, phase.auxSize);
    DownloadNeverStalls(phase);
    RefillKeeps(p, total);
    if packet.TransferBlock? {
      var p' := Accept(p, packet.block);
      AcceptKeeps(p, packet.block, total);
      RefillKeeps(p', total);
      CountReceived(p', total);
    }
  }

  lemma CountReceived(p: Progress, total: nat)
    requires Partition(p, total)
    ensures |p.received| == total <==> p.queue == {} && p.inflight == {}
  {
    hide DistinctIds;
    DistinctCount(p.received);
    IdsCount(total);
    var got := ReceivedIds(p.received);
    hide ReceivedIds, Ids;
    assert Ids(total) == got + (p.queue + p.inflight);
    assert |Ids(total)| == |got| + |p.queue + p.inflight|;
    assert p.queue + p.inflight == {} <==> p.queue == {} && p.inflight == {};
  }

  lemma {:induction false} IdsCount(n: nat)
    ensures |Ids(n)| == n
  {
    if n > 0 {
      IdsCount(n - 1);
    }
  }

  lemma {:induction false} DistinctCount(bs: seq<Block>)
    requires DistinctIds(bs)
    ensures |ReceivedIds(bs)| == |bs|
  {
    if bs != [] {
      var n := |bs| - 1;
      DistinctCount(bs[..n]);
      ReceivedSnoc(bs[..n], bs[n]);
      assert bs[..n] + [bs[n]] == bs;
      assert bs[n].id !in ReceivedIds(bs[..n]);
    }
  }

  // ----- Reassembly

  function InsertById(b: Block, bs: seq<Block>): seq<Block> {
    if bs == [] || b.id <= bs[0].id then [b] + bs else [bs[0]] + InsertById(b, bs[1..])
  }

  /** The stable sort by block id. */
  function SortById(bs: seq<Block>): seq<Block> {
    if bs == [] then [] else InsertById(bs[0], SortById(bs[1..]))
  }

  ghost predicate SortedById(bs: seq<Block>) {
    forall i, j :: 0 <= i < j < |bs| ==> bs[i].id <= bs[j].id
  }

  ghost predicate NoneBelow(id: nat, bs: seq<Block>) {
    forall x :: x in bs ==> id <= x.id
  }

  lemma ConsMultiset(b: Block, bs: seq<Block>)
    ensures multiset([b] + bs) == multiset{b} + multiset(bs)
  {}

  lemma SortedCons(b: Block, bs: seq<Block>)
    ensures SortedById([b] + bs) <==> NoneBelow(b.id, bs) && SortedById(bs)
  {
    var all := [b] + bs;
    if SortedById(all) {
      forall x | x in bs ensures b.id <= x.id {
        var j :| 0 <= j < |bs| && bs[j] == x;
        assert all[0] == b && all[j + 1] == x;
      }
      forall i, j | 0 <= i < j < |bs| ensures bs[i].id <= bs[j].id {
        assert all[i + 1] == bs[i] && all[j + 1] == bs[j];
      }
    }
  }

  lemma NoneBelowInserted(id: nat, b: Block, bs: seq<Block>, all: seq<Block>)
    requires NoneBelow(id, bs) && id <= b.id && multiset(all) == multiset(bs) + multiset{b}
    ensures NoneBelow(id, all)
  {
    forall x | x in all ensures id <= x.id {
      assert x in multiset(all);
      assert x == b || x in multiset(bs);
    }
  }

  lemma {:induction false} InsertByIdSorts(b: Block, bs: seq<Block>)
    requires SortedById(bs)
    ensures SortedById(InsertById(b, bs)) && multiset(InsertById(b, bs)) == multiset(bs) + multiset{b}
    decreases |bs|
  {
    hide SortedById, NoneBelow;
    if bs == [] {
      SortedCons(b, []);
      assert [b] + [] == [b] && NoneBelow(b.id, []) by { NothingBelow(b.id); }
    } else {
      var first, tail := bs[0], bs[1..];
      assert bs == [first] + tail;
      SortedCons(first, tail);
      ConsMultiset(first, tail);
      if b.id <= first.id {
        LowerStill(b.id, first, tail);
        SortedCons(b, bs);
        ConsMultiset(b, bs);
      } else {
        InsertByIdSorts(b, tail);
        var rest := InsertById(b, tail);
        NoneBelowInserted(first.id, b, tail, rest);
        SortedCons(first, rest);
        ConsMultiset(first, rest);
      }
    }
  }

  lemma NothingBelow(id: nat)
    ensures NoneBelow(id, []) && SortedById([])
  {}

  lemma LowerStill(id: nat, first: Block, tail: seq<Block>)
    requires NoneBelow(first.id, tail) && id <= first.id
    ensures NoneBelow(id, [first] + tail)
  {}

  lemma {:induction false} SortByIdSorts(bs: seq<Block>)
    ensures SortedById(SortById(bs)) && multiset(SortById(bs)) == multiset(bs)
  {
    if bs != [] {
      SortByIdSorts(bs[1..]);
      InsertByIdSorts(bs[0], SortById(bs[1..]));
      assert bs == [bs[0]] + bs[1..];
    }
  }

  lemma {:induction false} SamePermutation(a: seq<Block>, b: seq<Block>)
    requires multiset(a) == multiset(b)
    ensures |a| == |b| && ReceivedIds(a) == ReceivedIds(b)
  {
    assert |a| == |multiset(a)| && |b| == |multiset(b)|;
    assert forall x :: x in a <==> x in multiset(a);
    assert forall x :: x in b <==> x in multiset(b);
  }

  lemma LastIsLargest(bs: seq<Block>, n: nat)
    requires SortedById(bs) && |bs| == n > 0 && ReceivedIds(bs) == Ids(n)
    ensures bs[n - 1].id == n - 1
  {
    hide Ids;
    assert bs[n - 1] in bs && bs[n - 1].id in ReceivedIds(bs);
    assert n - 1 in ReceivedIds(bs);
    var b :| b in bs && b.id == n - 1;
    var j :| 0 <= j < n && bs[j] == b;
  }

  /** A sorted list whose ids are 0 to n-1, each once, has block i at place i. */
  lemma {:induction false} SortedIdsAreIndices(bs: seq<Block>, n: nat)
    requires SortedById(bs) && |bs| == n && ReceivedIds(bs) == Ids(n)
    ensures forall i :: 0 <= i < n ==> bs[i].id == i
    decreases n
  {
    hide Ids, ReceivedIds;
    if n > 0 {
      var front, last := bs[..n - 1], bs[n - 1];
      LastIsLargest(bs, n);
      assert bs == front + [last];
      ReceivedSnoc(front, last);
      LastIdAlone(front, n - 1);
      SortedIdsAreIndices(front, n - 1);
      assert forall i :: 0 <= i < n - 1 ==> bs[i] == front[i];
    }
  }

  lemma LastIdAlone(front: seq<Block>, m: nat)
    requires |front| == m && ReceivedIds(front) + {m} == Ids(m + 1)
    ensures ReceivedIds(front) == Ids(m)
  {
    AtMostSoMany(front);
    IdsCount(m);
    assert Ids(m) <= ReceivedIds(front);
    if m in ReceivedIds(front) {
      assert Ids(m) < ReceivedIds(front);
      ProperSubsetSmaller(Ids(m), ReceivedIds(front));
    }
  }

  lemma {:induction false} AtMostSoMany(bs: seq<Block>)
    ensures |ReceivedIds(bs)| <= |bs|
  {
    if bs != [] {
      var n := |bs| - 1;
      AtMostSoMany(bs[..n]);
      ReceivedSnoc(bs[..n], bs[n]);
      assert bs[..n] + [bs[n]] == bs;
    }
  }

  lemma ProperSubsetSmaller(a: set<nat>, b: set<nat>)
    requires a < b
    ensures |a| < |b|
  {
    assert b == a + (b - a);
  }

  datatype Reassembled = Recovered(world: bytes, aux: bytes) | TooShort | BadSlice

  function Payloads(bs: seq<Block>): seq<bytes> {
    seq(|bs|, i requires 0 <= i < |bs| => bs[i].data)
  }

  /** Sorts, concatenates and slices the received blocks; `BadSlice` is a slice with its end before its start. */
  function Reassemble(received: seq<Block>, worldSize: nat, auxSize: nat): Reassembled {
    var data := Flatten(Payloads(SortById(received)));
    var offset := AlignedLength(worldSize);
    if |data| < offset + auxSize then TooShort
    else
      var end := (offset + auxSize) % U32_LIMIT;
      if worldSize > |data| || end < offset then BadSlice
      else Recovered(data[..worldSize], data[offset..end])
  }

  /** Every received block is the block of that id of the stream. */
  ghost predicate FromStream(bs: seq<Block>, stream: bytes) {
    forall b :: b in bs ==> (b.id + 1) * BLOCK <= |stream| && b.data == BlockAt(stream, b.id)
  }

  lemma SortedPayloads(received: seq<Block>, stream: bytes, n: nat)
    requires DistinctIds(received) && ReceivedIds(received) == Ids(n) && |stream| == n * BLOCK &&
               FromStream(received, stream)
    ensures Flatten(Payloads(SortById(received))) == stream
  {
    hide ReceivedIds, Ids, DistinctIds, SortById, BlockAt;
    var sorted := SortById(received);
    SortByIdSorts(received);
    SamePermutation(sorted, received);
    DistinctCount(received);
    IdsCount(n);
    SortedIdsAreIndices(sorted, n);
    forall i | 0 <= i < n ensures Payloads(sorted)[i] == BlockAt(stream, i) {
      assert sorted[i] in multiset(sorted);
      assert sorted[i] in received;
    }
    BlocksConcatenate(stream, Payloads(sorted));
    assert stream[..n * BLOCK] == stream;
  }

  /**
   * The blocks of a complete download recover the world and the auxiliary data, exactly when the auxiliary data ends
   * below 2^32. Above that the end of the last slice wraps around to before its start, or the check of the sum fails: a
   * panic in every build.
   */
  lemma DownloadRecovers(received: seq<Block>, world: bytes, aux: bytes)
    requires FitsBlocks(|world|, |aux|)
    requires Inv(Done(|world|, |aux|, received)) && FromStream(received, Layout(world, aux))
    ensures Reassemble(received, |world|, |aux|) ==
            if Sliceable(|world|, |aux|) then Recovered(world, aux) else BadSlice
  {
    hide SortById, ReceivedIds, Ids, DistinctIds, FromStream, Layout, AlignedLength, BlockCount, Payloads, Flatten;
    var stream := Layout(world, aux);
    AlignedExact(|world|);
    AlignedExact(|aux|);
    LayoutSlices(world, aux);
    SortedPayloads(received, stream, BlockCount(|world|) + BlockCount(|aux|));
  }

  function ReceivedSoFar(phase: Phase): seq<Block> {
    match phase
    case WaitingForWorld(_) => []
    case Downloading(_, _, p) => p.received
    case Done(_, _, received) => received
    case Crashed => []
  }

  /** Nothing is received but what packets bring. */
  lemma {:induction false} RunReceives(phase: Phase, packets: seq<Packet>)
    requires Inv(phase)
    ensures forall b :: b in ReceivedSoFar(Run(phase, packets)) ==>
              b in ReceivedSoFar(phase) || TransferBlock(b) in packets
    decreases |packets|
  {
    if packets != [] {
      var next := OnPacket(phase, packets[0]).phase;
      PacketKeeps(phase, packets[0]);
      PacketReceives(phase, packets[0]);
      RunReceives(next, packets[1..]);
    }
  }

  lemma PacketReceives(phase: Phase, packet: Packet)
    requires Inv(phase)
    ensures forall b :: b in ReceivedSoFar(OnPacket(phase, packet).phase) ==>
              b in ReceivedSoFar(phase) || packet == TransferBlock(b)
  {
    hide Refill, Ids, BlockCount, Partition, Full, DistinctIds, ReceivedIds;
    match phase
    case WaitingForWorld(_) =>
      if packet.MapReady? {
        var total := TotalBlocks(packet.worldSize, packet.auxSize);
        StartPartition(total);
        RefillKeeps(Progress(Ids(total), {}, []), total);
      }
    case Downloading(w, a, p) =>
      RefillKeeps(p, TotalBlocks(w, a));
      if packet.TransferBlock? {
        AcceptKeeps(p, packet.block, TotalBlocks(w, a));
        RefillKeeps(Accept(p, packet.block), TotalBlocks(w, a));
      }
    case Done(_, _, _) =>
    case Crashed =>
  }

  /** Blocks in range of the stream are those of the stream. */
  ghost predicate GenuineBlocks(packets: seq<Packet>, stream: bytes) {
    forall b :: TransferBlock(b) in packets && (b.id + 1) * BLOCK <= |stream| ==> b.data == BlockAt(stream, b.id)
  }

  /** The slices of the reassembly stay below 2^32. */
  predicate Sliceable(worldSize: nat, auxSize: nat) {
    AlignedLength(worldSize) + auxSize < U32_LIMIT || auxSize == 0
  }

  /** A run that ends, and in which no block in range was forged, has downloaded the world, if it can be sliced. */
  lemma FinishedRunsRecover(checked: bool, packets: seq<Packet>, world: bytes, aux: bytes)
    requires FitsBlocks(|world|, |aux|) && GenuineBlocks(packets, Layout(world, aux))
    requires var end := Run(WaitingForWorld(checked), packets);
             end.Done? && end.worldSize == |world| && end.auxSize == |aux|
    ensures Reassemble(Run(WaitingForWorld(checked), packets).received, |world|, |aux|) ==
            if Sliceable(|world|, |aux|) then Recovered(world, aux) else BadSlice
  {
    hide Run, Layout, Reassemble, BlockAt, Ids, ReceivedIds, BlockCount, AlignedLength;
    var end, stream := Run(WaitingForWorld(checked), packets), Layout(world, aux);
    RunKeeps(WaitingForWorld(checked), packets);
    RunReceives(WaitingForWorld(checked), packets);
    AlignedExact(|world|);
    AlignedExact(|aux|);
    LayoutSlices(world, aux);
    var total := TotalBlocks(|world|, |aux|);
    assert |stream| == total * BLOCK by { TotalIsExact(world, aux); }
    forall b | b in end.received ensures (b.id + 1) * BLOCK <= |stream| && b.data == BlockAt(stream, b.id) {
      IdInRange(end.received, b);
    }
    DownloadRecovers(end.received, world, aux);
  }

  /** Whenever a world is announced, it is of these sizes. */
  predicate Announce(packets: seq<Packet>, worldSize: nat, auxSize: nat) {
    forall p :: p in packets && p.MapReady? ==> p.worldSize == worldSize && p.auxSize == auxSize
  }

  predicate OfSizes(phase: Phase, worldSize: nat, auxSize: nat) {
    phase.Downloading? || phase.Done? ==> phase.worldSize == worldSize && phase.auxSize == auxSize
  }

  lemma {:induction false} RunIsAnnounced(phase: Phase, packets: seq<Packet>, worldSize: nat, auxSize: nat)
    requires OfSizes(phase, worldSize, auxSize) && Announce(packets, worldSize, auxSize)
    ensures OfSizes(Run(phase, packets), worldSize, auxSize)
    decreases |packets|
  {
    hide Refill, Ids;
    if packets != [] {
      assert packets[0] in packets;
      RunIsAnnounced(OnPacket(phase, packets[0]).phase, packets[1..], worldSize, auxSize);
    }
  }

  /** A build that checks arithmetic crashes exactly on the announcement of a size that does not fit it. */
  lemma {:induction false} CrashesExactly(checked: bool, packets: seq<Packet>, worldSize: nat, auxSize: nat)
    requires Announce(packets, worldSize, auxSize) && worldSize < U32_LIMIT && auxSize < U32_LIMIT
    ensures Run(WaitingForWorld(checked), packets).Crashed? <==>
            checked && !FitsBuild(checked, worldSize, auxSize) && exists p :: p in packets && p.MapReady?
    decreases |packets|
  {
    hide Refill, Ids, BlockCount;
    if packets != [] {
      assert packets[0] in packets;
      var next := OnPacket(WaitingForWorld(checked), packets[0]).phase;
      if packets[0].MapReady? {
        OnlyStartsCrash(next, packets[1..]);
      } else {
        CrashesExactly(checked, packets[1..], worldSize, auxSize);
        assert packets == [packets[0]] + packets[1..];
      }
    }
  }

  lemma {:induction false} OnlyStartsCrash(phase: Phase, packets: seq<Packet>)
    requires !phase.WaitingForWorld?
    ensures Run(phase, packets).Crashed? <==> phase.Crashed?
    decreases |packets|
  {
    hide Refill;
    if packets != [] {
      OnlyStartsCrash(OnPacket(phase, packets[0]).phase, packets[1..]);
    }
  }

  lemma {:induction false} RunSnoc(phase: Phase, packets: seq<Packet>, packet: Packet)
    ensures Run(phase, packets + [packet]) == OnPacket(Run(phase, packets), packet).phase
    decreases |packets|
  {
    hide OnPacket;
    if packets == [] {
      assert packets + [packet] == [packet] && [packet][1..] == [];
    } else {
      assert (packets + [packet])[1..] == packets[1..] + [packet];
      RunSnoc(OnPacket(phase, packets[0]).phase, packets[1..], packet);
    }
  }

  /**
   * A download that fails, in every build: all blocks of these sizes arrive, and the reassembly panics because the
   * auxiliary data ends above 2^32.
   */
  lemma UnsliceableDownload(checked: bool, world: bytes, aux: bytes) returns (packets: seq<Packet>)
    requires |world| == U32_LIMIT - BLOCK - 1 && |aux| == 1000
    ensures FitsBuild(checked, |world|, |aux|) && Announce(packets, |world|, |aux|)
    ensures GenuineBlocks(packets, Layout(world, aux))
    ensures var end := Run(WaitingForWorld(checked), packets);
            end.Done? && Reassemble(end.received, end.worldSize, end.auxSize) == BadSlice
  {
    hide Run, OnPacket, Inv, Layout, Reassemble, BlockAt;
    var stream := Layout(world, aux);
    var content := (id: nat) => if (id + 1) * BLOCK <= |stream| then BlockAt(stream, id) else [];
    var ready := MapReady(|world|, |aux|, false);
    var start := WaitingForWorld(checked);
    Started(checked, |world|, |aux|);
    PacketKeeps(start, ready);
    var rest := CanFinish(OnPacket(start, ready).phase, content);
    packets := [ready] + rest;
    RunFrom(start, ready, rest);
    RunIsAnnounced(start, packets, |world|, |aux|);
    FinishedRunsRecover(checked, packets, world, aux);
  }

  lemma Started(checked: bool, worldSize: nat, auxSize: nat)
    requires worldSize == U32_LIMIT - BLOCK - 1 && auxSize == 1000
    ensures Inv(WaitingForWorld(checked)) && !Sliceable(worldSize, auxSize)
    ensures var phase := OnPacket(WaitingForWorld(checked), MapReady(worldSize, auxSize, false)).phase;
            && phase.Downloading? && phase.worldSize == worldSize && phase.auxSize == auxSize
            && TotalBlocks(worldSize, auxSize) > 0
  {
    hide Refill, Ids;
  }

  lemma RunFrom(phase: Phase, packet: Packet, rest: seq<Packet>)
    ensures Run(phase, [packet] + rest) == Run(OnPacket(phase, packet).phase, rest)
  {
    hide OnPacket;
    assert ([packet] + rest)[1..] == rest;
  }

  lemma TotalIsExact(world: bytes, aux: bytes)
    requires |world| <= U32_LIMIT - BLOCK && |aux| <= U32_LIMIT - BLOCK
    ensures |Layout(world, aux)| == TotalBlocks(|world|, |aux|) * BLOCK
  {
    hide Layout, BlockCount, AlignedLength;
    LayoutSlices(world, aux);
    FewBlocks(|world|);
    FewBlocks(|aux|);
  }

  lemma FewBlocks(n: nat)
    ensures BlockCount(n) < U32_LIMIT / 2
  {}

  lemma IdInRange(bs: seq<Block>, b: Block)
    requires b in bs
    ensures b.id in ReceivedIds(bs)
  {}

  // ----- The code

  class ServerProxyState {
    var phase: Phase
    var hasStream: bool

    /** The stream to the client is there until the download is handed over, which takes it. */
    ghost predicate Valid()
      reads this
    {
      Inv(phase) && (hasStream <==> !phase.Done?)
    }

    constructor (checked: bool)
      ensures Valid() && phase == WaitingForWorld(checked)
    {
      phase := WaitingForWorld(checked);
      hasStream := true;
    }

    static method RequestNextBlocks(p0: Progress) returns (p: Progress, requested: seq<nat>)
      ensures p == Refill(p0).0 && requested == Refill(p0).1
    {
      hide Refill, Smallest;
      p, requested := p0, [];
      assert requested + Refill(p0).1 == Refill(p0).1;
      while |p.inflight| < INFLIGHT_LIMIT && p.queue != {}
        invariant Refill(p).0 == Refill(p0).0
        invariant requested + Refill(p).1 == Refill(p0).1
        decreases |p.queue|
      {
        var id := PopFirst(p.queue);
        RefillStep(p, id);
        p := p.(queue := p.queue - {id}, inflight := p.inflight + {id});
        assert requested + ([id] + Refill(p).1) == requested + [id] + Refill(p).1;
        requested := requested + [id];
      }
      RefillStops(p);
      assert requested + [] == requested;
    }

    method FinalizeWorld()
      requires phase.Downloading? && hasStream
      modifies this
      ensures phase == Done(old(phase).worldSize, old(phase).auxSize, old(phase).p.received) && !hasStream
    {
      phase := Done(phase.worldSize, phase.auxSize, phase.p.received);
      hasStream := false;
    }

    method OnPacketFromServer(packet: Packet) returns (resent: set<nat>, requested: seq<nat>)
      requires Valid()
      modifies this
      ensures Valid()
      ensures Reaction(phase, resent, requested) == OnPacket(old(phase), packet)
    {
      hide Refill, Inv;
      PacketKeeps(phase, packet);
      resent, requested := {}, [];
      match phase {
        case WaitingForWorld(checked) =>
          if packet.MapReady? {
            if checked && (SumOverflows(packet.worldSize) || SumOverflows(packet.auxSize)) {
              phase := Crashed;
              return;
            }
            var p := Progress(Ids(TotalBlocks(packet.worldSize, packet.auxSize)), {}, []);
            p, requested := RequestNextBlocks(p);
            phase := Downloading(packet.worldSize, packet.auxSize, p);
          }
        case Downloading(w, a, p) =>
          if packet.BadTransferBlock? {
            return;
          }
          if packet.TransferBlock? {
            var p' := Accept(p, packet.block);
            phase := Downloading(w, a, p');
            if p'.queue == {} && p'.inflight == {} {
              FinalizeWorld();
            } else {
              p', requested := RequestNextBlocks(p');
              phase := Downloading(w, a, p');
            }
          } else if packet.late {
            resent := p.inflight;
            var p';
            p', requested := RequestNextBlocks(p);
            phase := Downloading(w, a, p');
          }
        case Done(_, _, _) =>
        case Crashed =>
      }
    }
  }
}
