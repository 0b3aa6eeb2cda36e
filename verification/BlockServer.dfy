/** The client proxy's block server: it answers the game's requests from a world that is still arriving. */
module BlockServer {
  import opened Bytes
  import opened Blocks
  import opened OrderedSets

  datatype Server = Server(held: bytes, pending: set<nat>, done: bool)

  const START: Server := Server([], {}, false)

  /** `expired` says that 60 seconds passed since the last request or data. */
  datatype Event = Request(id: nat) | OtherPacket(expired: bool) | Data(chunk: bytes) | EndOfData

  predicate Answerable(held: bytes, id: nat) {
    (id + 1) * BLOCK <= |held|
  }

  function TryFulfill(held: bytes, id: nat): Option<Block> {
    if Answerable(held, id) then Some(Block(id, BlockAt(held, id))) else None
  }

  /** Answers to the ids of `ids` that can be answered, in ascending order. */
  ghost function Answers(held: bytes, ids: set<nat>): seq<Block>
    decreases |ids|
  {
    if ids == {} then []
    else
      var id := Smallest(ids);
      (if Answerable(held, id) then [Block(id, BlockAt(held, id))] else []) + Answers(held, ids - {id})
  }

  function Unanswered(held: bytes, ids: set<nat>): set<nat> {
    set id | id in ids && !Answerable(held, id)
  }

  /** Data is only received until its end was seen. */
  predicate Enabled(s: Server, e: Event) {
    e.Data? || e.EndOfData? ==> !s.done
  }

  ghost function Next(s: Server, e: Event): (Server, seq<Block>) {
    match e
    case Request(id) =>
      if Answerable(s.held, id) then (s, [Block(id, BlockAt(s.held, id))])
      else (s.(pending := s.pending + {id}), [])
    case OtherPacket(expired) => (if s.held != [] && s.done && expired then s.(held := []) else s, [])
    case Data(chunk) =>
      var held := s.held + chunk;
      (s.(held := held, pending := Unanswered(held, s.pending)), Answers(held, s.pending))
    case EndOfData => (s.(done := true), [])
  }

  ghost predicate Legal(s: Server, es: seq<Event>)
    decreases |es|
  {
    es != [] ==> Enabled(s, es[0]) && Legal(Next(s, es[0]).0, es[1..])
  }

  /** The state after a run and every reply sent in it. */
  ghost function Run(s: Server, es: seq<Event>): (Server, seq<Block>)
    decreases |es|
  {
    if es == [] then (s, [])
    else
      var (s', out) := Next(s, es[0]);
      var (end, more) := Run(s', es[1..]);
      (end, out + more)
  }

  /** Everything that arrives in a run. */
  function Stream(es: seq<Event>): bytes {
    if es == [] then [] else (if es[0].Data? then es[0].chunk else []) + Stream(es[1..])
  }

  // ----- What every event keeps

  /**
   * Nothing held can answer a pending request; what is held is all that arrived, unless it was cleaned up after the
   * end.
   */
  ghost predicate Inv(s: Server, arrived: bytes) {
    && (forall id :: id in s.pending ==> !Answerable(s.held, id))
    && (s.held == arrived || (s.done && s.held == []))
  }

  function ArrivedAfter(arrived: bytes, e: Event): bytes {
    if e.Data? then arrived + e.chunk else arrived
  }

  lemma {:induction false} AnswersExact(held: bytes, ids: set<nat>, id: nat)
    ensures id in ids && Answerable(held, id) ==> Block(id, BlockAt(held, id)) in Answers(held, ids)
    ensures forall b :: b in Answers(held, ids) ==>
              b.id in ids && Answerable(held, b.id) && b.data == BlockAt(held, b.id)
    decreases |ids|
  {
    hide BlockAt, Answerable;
    if ids != {} {
      AnswersExact(held, ids - {Smallest(ids)}, id);
    }
  }

  /** Every reply is the block of that id of what has arrived, and every request is answered or kept. */
  lemma EventKeeps(s: Server, e: Event, arrived: bytes)
    requires Inv(s, arrived) && Enabled(s, e)
    ensures var (s', out) := Next(s, e);
            var arrived' := ArrivedAfter(arrived, e);
            && Inv(s', arrived')
            && (forall b :: b in out ==> Answerable(arrived', b.id) && b.data == BlockAt(arrived', b.id))
            && (forall id :: id in s.pending || e == Request(id) ==>
                 id in s'.pending || exists b :: b in out && b.id == id)
  {
    hide BlockAt;
    match e
    case Request(id) =>
    case OtherPacket(_) =>
    case Data(chunk) =>
      var held := s.held + chunk;
      AnswersExact(held, s.pending, 0);
      forall id | id in s.pending && id !in Unanswered(held, s.pending)
        ensures exists b :: b in Answers(held, s.pending) && b.id == id
      {
        AnswersExact(held, s.pending, id);
      }
    case EndOfData =>
  }

  lemma LaterStillSlice(arrived: bytes, more: bytes, id: nat)
    requires Answerable(arrived, id)
    ensures Answerable(arrived + more, id) && BlockAt(arrived + more, id) == BlockAt(arrived, id)
  {}

  lemma {:induction false} RunKeeps(s: Server, es: seq<Event>, arrived: bytes)
    requires Inv(s, arrived) && Legal(s, es)
    ensures var (end, out) := Run(s, es);
            var all := arrived + Stream(es);
            && Inv(end, all)
            && (forall b :: b in out ==> Answerable(all, b.id) && b.data == BlockAt(all, b.id))
            && (forall id :: id in s.pending || Request(id) in es ==>
                 id in end.pending || exists b :: b in out && b.id == id)
    decreases |es|
  {
    hide BlockAt, Inv, Next, Run, Legal, Stream;
    RunStep(s, es, arrived);
    if es != [] {
      var e, rest := es[0], es[1..];
      var (s', out) := Next(s, e);
      var arrived' := ArrivedAfter(arrived, e);
      EventKeeps(s, e, arrived);
      RunKeeps(s', rest, arrived');
      forall b | b in out
        ensures Answerable(arrived' + Stream(rest), b.id) && b.data == BlockAt(arrived' + Stream(rest), b.id)
      {
        LaterStillSlice(arrived', Stream(rest), b.id);
      }
      var (end, more) := Run(s', rest);
      assert es == [e] + rest;
      forall id | id in s.pending || Request(id) in es
        ensures id in end.pending || exists b :: b in out + more && b.id == id
      {
        EitherReply(out, more, id);
      }
    }
  }

  lemma RunStep(s: Server, es: seq<Event>, arrived: bytes)
    ensures es == [] ==> Run(s, es) == (s, []) && arrived + Stream(es) == arrived
    ensures es != [] ==>
              var (s', out) := Next(s, es[0]);
              var (end, more) := Run(s', es[1..]);
              && Run(s, es) == (end, out + more)
              && arrived + Stream(es) == ArrivedAfter(arrived, es[0]) + Stream(es[1..])
              && (Legal(s, es) ==> Enabled(s, es[0]) && Legal(s', es[1..]))
  {
    hide Next;
  }

  lemma EitherReply(out: seq<Block>, more: seq<Block>, id: nat)
    ensures (exists b :: b in out && b.id == id) || (exists b :: b in more && b.id == id) ==>
              exists b :: b in out + more && b.id == id
  {
    if b :| b in out && b.id == id {
      assert b in out + more;
    }
    if b :| b in more && b.id == id {
      assert b in out + more;
    }
  }

  /** Over every interleaving of requests and arrivals, every reply is the exact block of the whole stream. */
  lemma RepliesAreBlocks(es: seq<Event>)
    requires Legal(START, es)
    ensures forall b :: b in Run(START, es).1 ==> Answerable(Stream(es), b.id) && b.data == BlockAt(Stream(es), b.id)
    ensures forall id :: id in Run(START, es).0.pending ==> !Answerable(Run(START, es).0.held, id)
  {
    hide BlockAt, Run, Stream;
    RunKeeps(START, es, []);
    assert [] + Stream(es) == Stream(es);
  }

  lemma {:induction false} RunConcat(s: Server, a: seq<Event>, b: seq<Event>)
    ensures var (mid, out) := Run(s, a);
            var (end, more) := Run(mid, b);
            Run(s, a + b) == (end, out + more)
    decreases |a|
  {
    hide Next;
    if a == [] {
      assert a + b == b;
      assert [] + Run(s, b).1 == Run(s, b).1;
    } else {
      assert (a + b)[1..] == a[1..] + b;
      var (s', out) := Next(s, a[0]);
      RunConcat(s', a[1..], b);
      var (mid, rest) := Run(s', a[1..]);
      assert out + (rest + Run(mid, b).1) == out + rest + Run(mid, b).1;
    }
  }

  lemma {:induction false} LegalConcat(s: Server, a: seq<Event>, b: seq<Event>)
    ensures Legal(s, a + b) <==> Legal(s, a) && Legal(Run(s, a).0, b)
    decreases |a|
  {
    hide Next, Enabled;
    if a == [] {
      assert a + b == b;
    } else {
      assert (a + b)[1..] == a[1..] + b;
      LegalConcat(Next(s, a[0]).0, a[1..], b);
    }
  }

  /**
   * Only what was requested is pending, and only what was pending or is requested now is answered, from what is held.
   */
  lemma RepliesToRequests(s: Server, e: Event, id: nat)
    ensures id in Next(s, e).0.pending ==> id in s.pending || e == Request(id)
    ensures (exists b :: b in Next(s, e).1 && b.id == id) ==>
              (id in s.pending || e == Request(id)) && Answerable(Next(s, e).0.held, id)
  {
    if e.Data? {
      AnswersExact(s.held + e.chunk, s.pending, id);
    }
  }

  lemma {:induction false} PendingWasRequested(es: seq<Event>, id: nat)
    requires id in Run(START, es).0.pending
    ensures Request(id) in es
    decreases |es|
  {
    hide Next;
    if es != [] {
      var n := |es| - 1;
      LastEvent(START, es);
      RepliesToRequests(Run(START, es[..n]).0, es[n], id);
      if id in Run(START, es[..n]).0.pending {
        PendingWasRequested(es[..n], id);
      }
    }
  }

  lemma LastEvent(s: Server, es: seq<Event>)
    requires es != []
    ensures var n := |es| - 1;
            var (mid, out) := Run(s, es[..n]);
            Run(s, es) == (Next(mid, es[n]).0, out + Next(mid, es[n]).1)
  {
    hide Next;
    var n := |es| - 1;
    var (mid, out) := Run(s, es[..n]);
    RunConcat(s, es[..n], [es[n]]);
    assert es == es[..n] + [es[n]] && [es[n]][1..] == [];
    assert Run(mid, [es[n]]) == (Next(mid, es[n]).0, Next(mid, es[n]).1 + []);
    assert Next(mid, es[n]).1 + [] == Next(mid, es[n]).1;
  }

  /** A packet that is no request came 60 seconds after the last request or data, when the data was complete. */
  ghost predicate CleanedUp(es: seq<Event>) {
    exists i, j :: 0 <= i < j < |es| && es[i].EndOfData? && es[j] == OtherPacket(true)
  }

  lemma {:induction false} StreamSnoc(es: seq<Event>, e: Event)
    ensures Stream(es + [e]) == Stream(es) + if e.Data? then e.chunk else []
    decreases |es|
  {
    if es == [] {
      assert es + [e] == [e] && [e][1..] == [];
      assert Stream([e]) == (if e.Data? then e.chunk else []) + Stream([]);
    } else {
      StreamSnoc(es[1..], e);
      assert (es + [e])[1..] == es[1..] + [e];
      var first, last := if es[0].Data? then es[0].chunk else [], if e.Data? then e.chunk else [];
      assert first + (Stream(es[1..]) + last) == first + Stream(es[1..]) + last;
    }
  }

  lemma CleanedUpSnoc(es: seq<Event>, e: Event)
    ensures CleanedUp(es + [e]) <==> CleanedUp(es) || (EndOfData in es && e == OtherPacket(true))
  {
    var all, n := es + [e], |es|;
    if CleanedUp(es) {
      var i, j :| 0 <= i < j < n && es[i].EndOfData? && es[j] == OtherPacket(true);
      assert all[i] == es[i] && all[j] == es[j];
    }
    if EndOfData in es && e == OtherPacket(true) {
      var i :| 0 <= i < n && es[i] == EndOfData;
      assert all[i] == es[i] && all[n] == e;
    }
    if CleanedUp(all) {
      var i, j :| 0 <= i < j < |all| && all[i].EndOfData? && all[j] == OtherPacket(true);
      assert all[i] == es[i] && (j < n ==> all[j] == es[j]);
    }
  }

  /** What is held is all that arrived, until the clean-up, and nothing from then on. */
  lemma {:induction false} HeldExactly(es: seq<Event>)
    requires Legal(START, es)
    ensures Run(START, es).0.done <==> EndOfData in es
    ensures Run(START, es).0.held == if CleanedUp(es) then [] else Stream(es)
    decreases |es|
  {
    hide Legal, Run, Stream, CleanedUp, Answers;
    if es == [] {
      RunStep(START, es, []);
      NothingYet();
    } else {
      var n := |es| - 1;
      var front, last := es[..n], es[n];
      assert es == front + [last];
      LegalConcat(START, front, [last]);
      LegalOne(Run(START, front).0, last);
      HeldExactly(front);
      LastEvent(START, es);
      StreamSnoc(front, last);
      CleanedUpSnoc(front, last);
      if CleanedUp(front) { CleanedUpEnded(front); }
      assert Stream(front) + [] == Stream(front);
    }
  }

  lemma CleanedUpEnded(es: seq<Event>)
    requires CleanedUp(es)
    ensures EndOfData in es
  {}

  lemma LegalOne(s: Server, e: Event)
    ensures Legal(s, [e]) ==> Enabled(s, e)
  {}

  lemma NothingYet()
    ensures Stream([]) == [] && !CleanedUp([])
  {}

  /** At some point of the run `id` was requested already and what was held then reached to its block. */
  ghost predicate WithinReach(es: seq<Event>, id: nat) {
    exists j :: 0 <= j <= |es| && Request(id) in es[..j] && Answerable(Run(START, es[..j]).0.held, id)
  }

  lemma {:induction false} AnsweredWasWithinReach(es: seq<Event>, id: nat)
    requires exists b :: b in Run(START, es).1 && b.id == id
    ensures WithinReach(es, id)
    decreases |es|
  {
    hide Next, Run;
    RunStep(START, es, []);
    var b :| b in Run(START, es).1 && b.id == id;
    var n := |es| - 1;
    LastEvent(START, es);
    var (mid, out) := Run(START, es[..n]);
    if b in out {
      AnsweredWasWithinReach(es[..n], id);
      var j :| 0 <= j <= n && Request(id) in es[..n][..j] && Answerable(Run(START, es[..n][..j]).0.held, id);
      assert es[..n][..j] == es[..j];
    } else {
      RepliesToRequests(mid, es[n], id);
      if id in mid.pending {
        PendingWasRequested(es[..n], id);
      }
      assert es[..n + 1] == es && es == es[..n] + [es[n]];
      assert Request(id) in es[..n + 1];
    }
  }

  /** Before the clean-up there is a point at which `id` was requested already and its 503 bytes had arrived. */
  ghost predicate InTime(es: seq<Event>, id: nat) {
    exists j :: 0 <= j <= |es| && RequestedInTime(es[..j], id)
  }

  ghost predicate RequestedInTime(es: seq<Event>, id: nat) {
    Request(id) in es && !CleanedUp(es) && id * 503 + 503 <= |Stream(es)|
  }

  lemma ReachIsTime(es: seq<Event>, id: nat)
    requires Legal(START, es)
    ensures WithinReach(es, id) <==> InTime(es, id)
  {
    hide Legal, Run, Stream, CleanedUp;
    forall j | 0 <= j <= |es|
      ensures RequestedInTime(es[..j], id) <==>
              Request(id) in es[..j] && Answerable(Run(START, es[..j]).0.held, id)
    {
      assert es == es[..j] + es[j..];
      LegalConcat(START, es[..j], es[j..]);
      HeldExactly(es[..j]);
    }
  }

  /**
   * A request is answered, with its 503 bytes of the whole stream, exactly if it and these bytes arrive before the
   * clean-up, in whichever order.
   */
  lemma RequestsAreAnswered(es: seq<Event>, id: nat)
    requires Legal(START, es)
    ensures (exists b :: b in Run(START, es).1 && b.id == id) <==> InTime(es, id)
    ensures InTime(es, id) ==>
              && id * 503 + 503 <= |Stream(es)|
              && Block(id, Stream(es)[id * 503..id * 503 + 503]) in Run(START, es).1
  {
    hide Run, Stream, Legal, WithinReach, InTime;
    ReachIsTime(es, id);
    ReachIsAnswered(es, id);
  }

  lemma ReachIsAnswered(es: seq<Event>, id: nat)
    requires Legal(START, es)
    ensures (exists b :: b in Run(START, es).1 && b.id == id) <==> WithinReach(es, id)
    ensures WithinReach(es, id) ==>
              Answerable(Stream(es), id) && Block(id, BlockAt(Stream(es), id)) in Run(START, es).1
  {
    hide BlockAt, Run, Stream, Legal, Inv;
    if exists b :: b in Run(START, es).1 && b.id == id {
      AnsweredWasWithinReach(es, id);
    }
    if WithinReach(es, id) {
      var j :| 0 <= j <= |es| && Request(id) in es[..j] && Answerable(Run(START, es[..j]).0.held, id);
      assert es == es[..j] + es[j..];
      LegalConcat(START, es[..j], es[j..]);
      RunConcat(START, es[..j], es[j..]);
      AnsweredByNow(es[..j], id);
      var b :| b in Run(START, es[..j]).1 && b.id == id;
      assert b in Run(START, es).1;
      RepliesAreBlocks(es);
    }
  }

  lemma AnsweredByNow(es: seq<Event>, id: nat)
    requires Legal(START, es) && Request(id) in es && Answerable(Run(START, es).0.held, id)
    ensures exists b :: b in Run(START, es).1 && b.id == id
  {
    hide BlockAt, Run, Stream, Legal;
    RunKeeps(START, es, []);
  }

  /** Once the whole stream has arrived, every request within it was answered, whatever follows, clean-up included. */
  lemma CompleteStreamIsServed(before: seq<Event>, after: seq<Event>, id: nat)
    requires Legal(START, before + after) && Request(id) in before
    requires !CleanedUp(before) && Answerable(Stream(before), id)
    ensures Answerable(Stream(before + after), id)
    ensures Block(id, BlockAt(Stream(before + after), id)) in Run(START, before + after).1
  {
    hide Run, Stream, Legal, CleanedUp;
    var es := before + after;
    assert es[..|before|] == before;
    assert RequestedInTime(es[..|before|], id);
    RequestsAreAnswered(es, id);
  }

  /** After the clean-up no request is ever answered again. */
  lemma {:induction false} CleanedUpForever(s: Server, es: seq<Event>)
    requires s.done && s.held == [] && Legal(s, es)
    ensures Run(s, es).1 == [] && Run(s, es).0.held == []
    ensures forall id :: Request(id) in es ==> id in Run(s, es).0.pending
    ensures s.pending <= Run(s, es).0.pending
    decreases |es|
  {
    if es != [] {
      assert es == [es[0]] + es[1..];
      CleanedUpForever(Next(s, es[0]).0, es[1..]);
    }
  }

  // ----- No request is answered more often than it was made

  function RepliesTo(out: seq<Block>, id: nat): nat {
    if out == [] then 0 else (if out[0].id == id then 1 else 0) + RepliesTo(out[1..], id)
  }

  function TimesRequested(es: seq<Event>, id: nat): nat {
    if es == [] then 0 else (if es[0] == Request(id) then 1 else 0) + TimesRequested(es[1..], id)
  }

  function Owed(s: Server, id: nat): nat {
    if id in s.pending then 1 else 0
  }

  lemma {:induction false} RepliesConcat(a: seq<Block>, b: seq<Block>, id: nat)
    ensures RepliesTo(a + b, id) == RepliesTo(a, id) + RepliesTo(b, id)
    decreases |a|
  {
    if a == [] {
      assert a + b == b;
    } else {
      assert (a + b)[1..] == a[1..] + b;
      RepliesConcat(a[1..], b, id);
    }
  }

  lemma OneReply(b: Block, id: nat)
    ensures RepliesTo([b], id) == if b.id == id then 1 else 0
  {
    assert [b][1..] == [];
  }

  lemma {:induction false} AnsweredOnce(held: bytes, ids: set<nat>, id: nat)
    ensures RepliesTo(Answers(held, ids), id) == if id in ids && Answerable(held, id) then 1 else 0
    decreases |ids|
  {
    hide BlockAt, Smallest;
    if ids != {} {
      var first := Smallest(ids);
      var rest := Answers(held, ids - {first});
      AnsweredOnce(held, ids - {first}, id);
      if Answerable(held, first) {
        var b := Block(first, BlockAt(held, first));
        RepliesConcat([b], rest, id);
        OneReply(b, id);
      } else {
        assert [] + rest == rest;
      }
    }
  }

  lemma EventOwes(s: Server, e: Event, id: nat)
    ensures var (s', out) := Next(s, e);
            RepliesTo(out, id) + Owed(s', id) <= Owed(s, id) + if e == Request(id) then 1 else 0
  {
    hide BlockAt, Answers;
    match e
    case Request(x) =>
      if Answerable(s.held, x) { OneReply(Block(x, BlockAt(s.held, x)), id); }
    case OtherPacket(_) =>
    case Data(chunk) => AnsweredOnce(s.held + chunk, s.pending, id);
    case EndOfData =>
  }

  /** Over every run, replies and the request still owed never exceed the requests. */
  lemma {:induction false} NoExtraReplies(s: Server, es: seq<Event>, id: nat)
    ensures var (end, out) := Run(s, es);
            RepliesTo(out, id) + Owed(end, id) <= Owed(s, id) + TimesRequested(es, id)
    decreases |es|
  {
    hide Next, Owed;
    if es != [] {
      var (s', out) := Next(s, es[0]);
      EventOwes(s, es[0], id);
      NoExtraReplies(s', es[1..], id);
      RepliesConcat(out, Run(s', es[1..]).1, id);
    }
  }

  class ClientProxyState {
    var worldData: bytes
    var pendingRequests: set<nat>
    var worldDataDone: bool

    function State(): Server
      reads this
    {
      Server(worldData, pendingRequests, worldDataDone)
    }

    constructor ()
      ensures State() == START
    {
      worldData := [];
      pendingRequests := {};
      worldDataDone := false;
    }

    method OnBlockRequest(id: nat) returns (reply: Option<Block>)
      modifies this
      ensures State() == Next(old(State()), Request(id)).0
      ensures Next(old(State()), Request(id)).1 == match reply case None => [] case Some(b) => [b]
    {
      reply := TryFulfill(worldData, id);
      if reply.None? {
        pendingRequests := pendingRequests + {id};
      }
    }

    method OnOtherPacket(expired: bool)
      modifies this
      ensures State() == Next(old(State()), OtherPacket(expired)).0
    {
      if worldData != [] && worldDataDone && expired {
        worldData := [];
      }
    }

    method OnNewWorldData(newData: Option<bytes>) returns (replies: seq<Block>)
      modifies this
      ensures var e := match newData case None => EndOfData case Some(chunk) => Data(chunk);
              State() == Next(old(State()), e).0 && replies == Next(old(State()), e).1
    {
      hide BlockAt, Smallest, Answers;
      replies := [];
      if newData.None? {
        worldDataDone := true;
        return;
      }
      worldData := worldData + newData.value;
      var todo, keep: set<nat> := pendingRequests, {};
      ghost var all := pendingRequests;
      assert replies + Answers(worldData, all) == Answers(worldData, all);
      while todo != {}
        invariant worldData == old(worldData) + newData.value && worldDataDone == old(worldDataDone)
        invariant keep == Unanswered(worldData, all - todo) && todo <= all
        invariant replies + Answers(worldData, todo) == Answers(worldData, all)
        decreases |todo|
      {
        var id := PopFirst(todo);
        AnswersStep(worldData, todo, id);
        var reply := TryFulfill(worldData, id);
        todo := todo - {id};
        if reply.Some? {
          assert replies + ([reply.value] + Answers(worldData, todo)) ==
                   replies + [reply.value] + Answers(worldData, todo);
          replies := replies + [reply.value];
        } else {
          assert [] + Answers(worldData, todo) == Answers(worldData, todo);
          keep := keep + {id};
        }
      }
      NoAnswers(worldData);
      assert replies + [] == replies;
      assert all - todo == all;
      pendingRequests := keep;
    }
  }

  lemma AnswersStep(held: bytes, ids: set<nat>, id: nat)
    requires id in ids && forall x :: x in ids ==> id <= x
    ensures var first := if Answerable(held, id) then [Block(id, BlockAt(held, id))] else [];
            Answers(held, ids) == first + Answers(held, ids - {id})
  {
    assert id == Smallest(ids);
  }

  lemma NoAnswers(held: bytes)
    ensures Answers(held, {}) == []
  {}
}
