/** The block-exchange protocol of one logged variable, as a machine of atomic steps.

    A producer and a consumer thread pass NUM_BLOCKS blocks round a pool, a read queue and a write
    queue. Each constructor of `Step` is one action that the other thread may come between: the
    consumer pops, copies a column at a time, reads the number of valid elements, resets and pushes
    back; the producer collects returned blocks one by one. Steps of both threads interleave freely. */
module BlockExchange {

  const NUM_BLOCKS: nat := 20

  /** A block of columns, the first `idx` of which are valid. */
  datatype Block<X> = Block(buf: seq<X>, idx: nat)

  /** A block that was closed: sent to the reader, or discarded when no free block was left. */
  datatype Chunk<X> = Chunk(samples: seq<X>, kept: bool)

  /** Where the producer is. `fromAdd` tells whether add_elem is what asked for the flush. */
  datatype Producer<B> =
    | Ready
    | Collect(fromAdd: bool)
    | Push(fromAdd: bool, taken: B)
    | ResetCurrent(closed: bool)
    | Thrown

  /** Where the consumer is, with the columns and the count that it has copied out. */
  datatype Consumer<B, X> =
    | Idle
    | Copy(held: B, data: seq<X>)
    | Reset(held: B, data: seq<X>, valid: nat)
    | Return(held: B, data: seq<X>, valid: nat)

  datatype State<B(==), X> = State(
    circular: bool,
    size: nat,
    store: map<B, Block<X>>,
    pool: seq<B>,
    readQueue: seq<B>,
    writeQueue: seq<B>,
    current: B,
    producer: Producer<B>,
    consumer: Consumer<B, X>,
    // the history: samples accepted, blocks closed, samples overwritten and samples read
    accepted: seq<X>,
    closed: seq<Chunk<X>>,
    evicted: seq<X>,
    delivered: seq<X>)

  datatype Step<X> =
    | Add(x: X)
    | BeginFlush(fromAdd: bool)
    | CollectOne
    | TakeBlock
    | PushCurrent
    | ResetAfterFlush
    | Pop
    | CopyColumn
    | ReadValid
    | ResetBlock
    | GiveBack
    | LeaveCircular

  function Valid<X>(b: Block<X>): seq<X>
    requires b.idx <= |b.buf|
  {
    b.buf[..b.idx]
  }

  /** The keys and shapes that make the steps below well defined. */
  ghost predicate Shaped<B, X>(s: State<B, X>) {
    && 1 <= s.size
    && (forall b | b in s.store :: |s.store[b].buf| == s.size && s.store[b].idx <= s.size)
    && (forall b | b in s.pool :: b in s.store)
    && (forall b | b in s.readQueue :: b in s.store)
    && (forall b | b in s.writeQueue :: b in s.store)
    && s.current in s.store
    && (s.producer.Push? ==> s.producer.taken in s.store)
    && (!s.consumer.Idle? ==> s.consumer.held in s.store)
  }

  ghost predicate Enabled<B, X>(s: State<B, X>, step: Step<X>)
    requires Shaped(s)
  {
    match step
    case Add(_) => s.producer.Ready? && s.store[s.current].idx < s.size
    case BeginFlush(fromAdd) =>
      s.producer.Ready? &&
      if fromAdd then s.store[s.current].idx == s.size else 0 < s.store[s.current].idx && !s.circular
    case CollectOne => s.producer.Collect? && s.writeQueue != []
    case TakeBlock => s.producer.Collect? && s.writeQueue == []
    case PushCurrent => s.producer.Push?
    case ResetAfterFlush => s.producer.ResetCurrent?
    case Pop => s.consumer.Idle? && s.readQueue != [] && !s.circular
    case CopyColumn => s.consumer.Copy? && |s.consumer.data| < s.size
    case ReadValid => s.consumer.Copy? && |s.consumer.data| == s.size
    case ResetBlock => s.consumer.Reset?
    case GiveBack => s.consumer.Return?
    case LeaveCircular => s.circular && s.producer.Ready?
  }

  /** The effect of a step. A push onto a full queue and a pop from an empty one are modelled as the
      code has them: two throw, the third is ignored. */
  ghost function Apply<B, X>(s: State<B, X>, step: Step<X>): State<B, X>
    requires Shaped(s) && Enabled(s, step)
  {
    var cur := s.store[s.current];
    match step
    case Add(x) =>
      s.(store := s.store[s.current := Block(cur.buf[cur.idx := x], cur.idx + 1)], accepted := s.accepted + [x])
    case BeginFlush(fromAdd) => s.(producer := Collect(fromAdd))
    case CollectOne => s.(pool := s.pool + [s.writeQueue[0]], writeQueue := s.writeQueue[1..])
    case TakeBlock => Taken(s)
    case PushCurrent =>
      if |s.readQueue| < NUM_BLOCKS then
        s.(readQueue := s.readQueue + [s.current],
           current := s.producer.taken,
           producer := if s.producer.fromAdd then ResetCurrent(true) else Ready,
           closed := s.closed + [Chunk(Valid(cur), true)])
      else s.(producer := Thrown)
    case ResetAfterFlush =>
      s.(store := s.store[s.current := cur.(idx := 0)],
         producer := Ready,
         closed := if s.producer.closed then s.closed else s.closed + [Chunk(Valid(cur), false)])
    case Pop => s.(readQueue := s.readQueue[1..], consumer := Copy(s.readQueue[0], []))
    case CopyColumn =>
      var c := s.consumer;
      s.(consumer := Copy(c.held, c.data + [s.store[c.held].buf[|c.data|]]))
    case ReadValid => s.(consumer := Reset(s.consumer.held, s.consumer.data, s.store[s.consumer.held].idx))
    case ResetBlock =>
      var c := s.consumer;
      s.(store := s.store[c.held := s.store[c.held].(idx := 0)], consumer := Return(c.held, c.data, c.valid))
    case GiveBack =>
      var c := s.consumer;
      s.(writeQueue := if |s.writeQueue| < NUM_BLOCKS then s.writeQueue + [c.held] else s.writeQueue,
         consumer := Idle,
         delivered := s.delivered + c.data[..if c.valid <= |c.data| then c.valid else |c.data|])
    case LeaveCircular => s.(circular := false)
  }

  /** get_new_block once the write queue is empty, and what flush_to_queue does with the answer. */
  function Taken<B, X>(s: State<B, X>): State<B, X>
    requires Shaped(s) && s.producer.Collect?
  {
    var fromAdd := s.producer.fromAdd;
    if s.pool != [] then
      var b := s.pool[|s.pool| - 1];
      s.(pool := s.pool[..|s.pool| - 1],
         store := s.store[b := s.store[b].(idx := 0)],
         producer := Push(fromAdd, b))
    else if !s.circular then
      s.(producer := if fromAdd then ResetCurrent(false) else Ready)
    else if s.readQueue == [] then
      s.(producer := Thrown)
    else
      var b := s.readQueue[0];
      s.(readQueue := s.readQueue[1..], producer := Push(fromAdd, b), evicted := s.evicted + Valid(s.store[b]))
  }

  // ----- The invariant -----

  function InProducer<B>(p: Producer<B>): seq<B> {
    if p.Push? then [p.taken] else []
  }

  function InConsumer<B, X>(c: Consumer<B, X>): seq<B> {
    if c.Idle? then [] else [c.held]
  }

  /** Every block is in exactly one place. */
  ghost predicate Conserved<B, X>(s: State<B, X>) {
    && |s.store| == NUM_BLOCKS
    && multiset(s.pool) + multiset(s.readQueue) + multiset(s.writeQueue) + multiset{s.current}
       + multiset(InProducer(s.producer)) + multiset(InConsumer(s.consumer)) == multiset(s.store.Keys)
  }

  /** The valid samples of the blocks of a queue, in order. */
  ghost function Samples<B, X>(store: map<B, Block<X>>, q: seq<B>): seq<X>
    requires forall b | b in q :: b in store && store[b].idx <= |store[b].buf|
  {
    if q == [] then [] else Valid(store[q[0]]) + Samples(store, q[1..])
  }

  /** What the consumer holds: popped, not yet given back. */
  ghost function InHand<B, X>(s: State<B, X>): seq<X>
    requires Shaped(s)
  {
    match s.consumer
    case Idle => []
    case Copy(b, _) => Valid(s.store[b])
    case Reset(_, data, n) => data[..if n <= |data| then n else |data|]
    case Return(_, data, n) => data[..if n <= |data| then n else |data|]
  }

  /** The current block's samples. A block that was just swapped in counts as empty: it is reset next. */
  ghost function Pending<B, X>(s: State<B, X>): seq<X>
    requires Shaped(s)
  {
    if s.producer == ResetCurrent(true) then [] else Valid(s.store[s.current])
  }

  ghost function All<X>(cs: seq<Chunk<X>>): seq<X> {
    if cs == [] then [] else All(cs[..|cs| - 1]) + cs[|cs| - 1].samples
  }

  ghost function Kept<X>(cs: seq<Chunk<X>>): seq<X> {
    if cs == [] then [] else
      Kept(cs[..|cs| - 1]) + if cs[|cs| - 1].kept then cs[|cs| - 1].samples else []
  }

  /** What the reader has got or will get, in order. */
  ghost function Stream<B, X>(s: State<B, X>): seq<X>
    requires Shaped(s)
  {
    s.delivered + InHand(s) + Samples(s.store, s.readQueue)
  }

  /** The same behind what was overwritten before it could be read. */
  ghost function Flow<B, X>(s: State<B, X>): seq<X>
    requires Shaped(s)
  {
    s.evicted + s.delivered + InHand(s) + Samples(s.store, s.readQueue)
  }

  /** What each thread may rely on: filled blocks to read, and a copy that nobody overwrites. */
  ghost predicate Local<B, X>(s: State<B, X>)
    requires Shaped(s)
  {
    && (forall b | b in s.readQueue :: 0 < s.store[b].idx)
    && (s.circular ==> s.consumer.Idle? && s.delivered == [])
    && (s.consumer.Copy? ==>
          && 0 < s.store[s.consumer.held].idx
          && |s.consumer.data| <= s.size
          && s.consumer.data == s.store[s.consumer.held].buf[..|s.consumer.data|])
    && (s.consumer.Reset? ==>
          && |s.consumer.data| == s.size && 0 < s.consumer.valid <= s.size
          && s.consumer.valid == s.store[s.consumer.held].idx)
    && (s.consumer.Return? ==> |s.consumer.data| == s.size && 0 < s.consumer.valid <= s.size)
    && (s.producer.Collect? ==> 0 < s.store[s.current].idx)
    && (s.producer.Collect? && s.producer.fromAdd ==> s.store[s.current].idx == s.size)
    && (s.producer.Collect? && s.circular ==> s.producer.fromAdd)
    && (s.producer.Push? ==> 0 < s.store[s.current].idx)
    && (s.producer.Push? && !s.producer.fromAdd ==> s.store[s.producer.taken].idx == 0)
    && (s.producer == ResetCurrent(false) ==> s.store[s.current].idx == s.size && !s.circular)
    && s.producer != Thrown
    && (forall c | c in s.closed :: |c.samples| <= s.size && (!c.kept ==> |c.samples| == s.size))
    && (s.circular ==> forall c | c in s.closed :: c.kept)
  }

  /** Every sample accepted is in a closed block or the current one; those of the blocks that were
      kept are, in order, behind or on their way to the reader. */
  ghost predicate History<B, X>(s: State<B, X>)
    requires Shaped(s)
  {
    && s.accepted == All(s.closed) + Pending(s)
    && Flow(s) == Kept(s.closed)
  }

  ghost predicate Inv<B, X>(s: State<B, X>) {
    Shaped(s) && Conserved(s) && Local(s) && History(s)
  }

  lemma SamplesFrame<B, X>(store: map<B, Block<X>>, store': map<B, Block<X>>, q: seq<B>)
    requires forall b | b in q :: b in store && store[b].idx <= |store[b].buf|
    requires forall b | b in q :: b in store' && store'[b] == store[b]
    ensures Samples(store', q) == Samples(store, q)
  {
  }

  lemma {:induction false} SamplesAppend<B, X>(store: map<B, Block<X>>, q: seq<B>, b: B)
    requires forall b' | b' in q + [b] :: b' in store && store[b'].idx <= |store[b'].buf|
    ensures Samples(store, q + [b]) == Samples(store, q) + Valid(store[b])
  {
    if q == [] {
      assert q + [b] == [b];
    } else {
      assert (q + [b])[1..] == q[1..] + [b];
      SamplesAppend(store, q[1..], b);
    }
  }

  // ----- No step breaks the invariant -----

  /** A block is in at most one place, there once. */
  lemma Once<B, X>(s: State<B, X>, b: B)
    requires Conserved(s)
    ensures Count(s.pool, b) + Count(s.readQueue, b) + Count(s.writeQueue, b) + Count([s.current], b)
            + Count(InProducer(s.producer), b) + Count(InConsumer(s.consumer), b) <= 1
  {
    var all := multiset(s.pool) + multiset(s.readQueue) + multiset(s.writeQueue) + multiset{s.current}
               + multiset(InProducer(s.producer)) + multiset(InConsumer(s.consumer));
    assert multiset([s.current]) == multiset{s.current};
    assert all[b] == multiset(s.store.Keys)[b] <= 1;
  }

  ghost function Count<B>(q: seq<B>, b: B): (n: nat)
    ensures b in q <==> 0 < n
  {
    assert b in q <==> b in multiset(q);
    multiset(q)[b]
  }

  /** A block in one place is in no other. */
  lemma Disjoint<B, X>(s: State<B, X>)
    requires Shaped(s) && Conserved(s)
    ensures s.current !in s.pool && s.current !in s.readQueue && s.current !in s.writeQueue
    ensures s.producer.Push? ==>
      s.producer.taken !in s.readQueue && s.producer.taken != s.current
    ensures !s.consumer.Idle? ==>
      && s.consumer.held !in s.readQueue && s.consumer.held != s.current && s.consumer.held !in s.pool
      && (s.producer.Push? ==> s.consumer.held != s.producer.taken)
    ensures forall b | b in s.pool :: b !in s.readQueue && b != s.current && b !in InConsumer(s.consumer)
  {
    hide Conserved, Count;
    Once(s, s.current);
    if s.producer.Push? {
      Once(s, s.producer.taken);
    }
    if !s.consumer.Idle? {
      Once(s, s.consumer.held);
    }
    forall b | b in s.pool
      ensures b !in s.readQueue && b != s.current && b !in InConsumer(s.consumer)
    {
      Once(s, b);
    }
  }

  lemma AddLocal<B, X>(s: State<B, X>, x: X)
    requires Shaped(s) && Conserved(s) && Local(s) && Enabled(s, Add(x))
    ensures var s' := Apply(s, Add(x)); Shaped(s') && Conserved(s') && Local(s')
  {
    Disjoint(s);
    assert Apply(s, Add(x)).store.Keys == s.store.Keys;
  }

  lemma AddHistory<B, X>(s: State<B, X>, x: X)
    requires Inv(s) && Enabled(s, Add(x)) && Shaped(Apply(s, Add(x)))
    ensures History(Apply(s, Add(x)))
  {
    hide Conserved, Local;
    var s' := Apply(s, Add(x));
    Disjoint(s);
    SamplesFrame(s.store, s'.store, s.readQueue);
    assert Valid(s'.store[s.current]) == Valid(s.store[s.current]) + [x];
  }

  lemma BeginFlushKeeps<B, X>(s: State<B, X>, fromAdd: bool)
    requires Inv(s) && Enabled(s, BeginFlush(fromAdd))
    ensures Inv(Apply(s, BeginFlush(fromAdd)))
  {
  }

  lemma CollectKeeps<B, X>(s: State<B, X>)
    requires Inv(s) && Enabled(s, CollectOne)
    ensures Inv(Apply(s, CollectOne))
  {
    assert s.writeQueue == [s.writeQueue[0]] + s.writeQueue[1..];
  }

  lemma TakeFromPoolLocal<B, X>(s: State<B, X>)
    requires Shaped(s) && Conserved(s) && Local(s) && Enabled(s, TakeBlock) && s.pool != []
    ensures var s' := Apply(s, TakeBlock); Shaped(s') && Conserved(s') && Local(s')
  {
    Disjoint(s);
    var n := |s.pool| - 1;
    assert s.pool == s.pool[..n] + [s.pool[n]];
    assert s.pool[n] in s.pool;
    assert Apply(s, TakeBlock).store.Keys == s.store.Keys;
  }

  lemma TakeFromPoolHistory<B, X>(s: State<B, X>)
    requires Inv(s) && Enabled(s, TakeBlock) && s.pool != [] && Shaped(Apply(s, TakeBlock))
    ensures History(Apply(s, TakeBlock))
  {
    hide Conserved, Local;
    Disjoint(s);
    assert s.pool[|s.pool| - 1] in s.pool;
    SamplesFrame(s.store, Apply(s, TakeBlock).store, s.readQueue);
  }

  /** With every block elsewhere, the read queue holds all the others. */
  lemma NoFreeBlock<B, X>(s: State<B, X>)
    requires Shaped(s) && Conserved(s) && Enabled(s, TakeBlock) && s.pool == []
    ensures |s.readQueue| + |InConsumer(s.consumer)| == NUM_BLOCKS - 1
  {
    var all := multiset(s.pool) + multiset(s.readQueue) + multiset(s.writeQueue) + multiset{s.current}
               + multiset(InProducer(s.producer)) + multiset(InConsumer(s.consumer));
    assert |all| == |multiset(s.store.Keys)| == NUM_BLOCKS;
  }

  lemma NoBlockKeeps<B, X>(s: State<B, X>)
    requires Inv(s) && Enabled(s, TakeBlock) && s.pool == [] && !s.circular
    ensures Inv(Apply(s, TakeBlock))
  {
  }

  lemma EvictLocal<B, X>(s: State<B, X>)
    requires Shaped(s) && Conserved(s) && Local(s) && Enabled(s, TakeBlock) && s.pool == [] && s.circular
    ensures s.readQueue != []
    ensures var s' := Apply(s, TakeBlock); Shaped(s') && Conserved(s') && Local(s')
  {
    NoFreeBlock(s);
    assert s.readQueue == [s.readQueue[0]] + s.readQueue[1..];
    assert s.readQueue[0] in s.readQueue;
  }

  lemma EvictHistory<B, X>(s: State<B, X>)
    requires Inv(s) && Enabled(s, TakeBlock) && s.pool == [] && s.circular && s.readQueue != []
    requires Shaped(Apply(s, TakeBlock))
    ensures History(Apply(s, TakeBlock))
  {
    hide Conserved;
    var v := Valid(s.store[s.readQueue[0]]);
    assert Samples(s.store, s.readQueue) == v + Samples(s.store, s.readQueue[1..]);
  }

  /** The push onto the read queue cannot fail. */
  lemma RoomToRead<B, X>(s: State<B, X>)
    requires Shaped(s) && Conserved(s) && s.producer.Push?
    ensures |s.readQueue| <= NUM_BLOCKS - 2
  {
    var all := multiset(s.pool) + multiset(s.readQueue) + multiset(s.writeQueue) + multiset{s.current}
               + multiset(InProducer(s.producer)) + multiset(InConsumer(s.consumer));
    assert |all| == |multiset(s.store.Keys)| == NUM_BLOCKS;
  }

  lemma PushConserved<B, X>(s: State<B, X>)
    requires Shaped(s) && Conserved(s) && Enabled(s, PushCurrent)
    ensures |s.readQueue| < NUM_BLOCKS
    ensures Conserved(Apply(s, PushCurrent))
  {
    RoomToRead(s);
  }

  lemma PushLocal<B, X>(s: State<B, X>)
    requires Shaped(s) && Local(s) && Enabled(s, PushCurrent) && |s.readQueue| < NUM_BLOCKS
    ensures var s' := Apply(s, PushCurrent); Shaped(s') && Local(s')
  {
  }

  lemma PushAccepted<B, X>(s: State<B, X>)
    requires Inv(s) && Enabled(s, PushCurrent) && |s.readQueue| < NUM_BLOCKS && Shaped(Apply(s, PushCurrent))
    ensures var s' := Apply(s, PushCurrent); s'.accepted == All(s'.closed) + Pending(s')
  {
    hide Conserved, Flow;
    var s' := Apply(s, PushCurrent);
    assert s'.closed[..|s.closed|] == s.closed;
  }

  lemma PushFlow<B, X>(s: State<B, X>)
    requires Inv(s) && Enabled(s, PushCurrent) && |s.readQueue| < NUM_BLOCKS && Shaped(Apply(s, PushCurrent))
    ensures var s' := Apply(s, PushCurrent); Flow(s') == Kept(s'.closed)
  {
    hide Conserved, Local, All, Pending;
    var s' := Apply(s, PushCurrent);
    SamplesAppend(s.store, s.readQueue, s.current);
    assert s'.closed[..|s.closed|] == s.closed;
  }

  lemma ResetAfterFlushLocal<B, X>(s: State<B, X>)
    requires Shaped(s) && Conserved(s) && Local(s) && Enabled(s, ResetAfterFlush)
    ensures var s' := Apply(s, ResetAfterFlush); Shaped(s') && Conserved(s') && Local(s')
  {
    Disjoint(s);
    assert Apply(s, ResetAfterFlush).store.Keys == s.store.Keys;
  }

  lemma ResetAfterFlushHistory<B, X>(s: State<B, X>)
    requires Inv(s) && Enabled(s, ResetAfterFlush) && Shaped(Apply(s, ResetAfterFlush))
    ensures History(Apply(s, ResetAfterFlush))
  {
    ResetAfterFlushAccepted(s);
    ResetAfterFlushFlow(s);
    hide Conserved, Local, Apply, Flow, All, Kept, Pending, Enabled;
  }

  lemma ResetAfterFlushAccepted<B, X>(s: State<B, X>)
    requires Inv(s) && Enabled(s, ResetAfterFlush) && Shaped(Apply(s, ResetAfterFlush))
    ensures var s' := Apply(s, ResetAfterFlush); s'.accepted == All(s'.closed) + Pending(s')
  {
    hide Conserved, Local, Flow;
    var s' := Apply(s, ResetAfterFlush);
    if !s.producer.closed {
      assert s'.closed[..|s.closed|] == s.closed;
    }
  }

  lemma ResetAfterFlushFlow<B, X>(s: State<B, X>)
    requires Inv(s) && Enabled(s, ResetAfterFlush) && Shaped(Apply(s, ResetAfterFlush))
    ensures var s' := Apply(s, ResetAfterFlush); Flow(s') == Kept(s'.closed)
  {
    hide Conserved, Local, All, Pending, Samples, Valid, Kept;
    var s' := Apply(s, ResetAfterFlush);
    Disjoint(s);
    SamplesFrame(s.store, s'.store, s.readQueue);
    SameInHand(s, s');
    if !s.producer.closed {
      assert s'.closed[..|s.closed|] == s.closed;
    }
    KeptMore(s.closed, s'.closed, s.producer.closed);
  }

  lemma SameInHand<B, X>(s: State<B, X>, s': State<B, X>)
    requires Shaped(s) && Shaped(s') && s'.consumer == s.consumer
    requires !s.consumer.Idle? ==> s'.store[s.consumer.held] == s.store[s.consumer.held]
    ensures InHand(s') == InHand(s)
  {
  }

  lemma KeptMore<X>(cs: seq<Chunk<X>>, cs': seq<Chunk<X>>, same: bool)
    requires if same then cs' == cs else |cs'| == |cs| + 1 && cs'[..|cs|] == cs && !cs'[|cs|].kept
    ensures Kept(cs') == Kept(cs)
  {
  }

  lemma PopLocal<B, X>(s: State<B, X>)
    requires Shaped(s) && Conserved(s) && Local(s) && Enabled(s, Pop)
    ensures var s' := Apply(s, Pop); Shaped(s') && Conserved(s') && Local(s')
  {
    assert s.readQueue == [s.readQueue[0]] + s.readQueue[1..];
    assert s.readQueue[0] in s.readQueue;
  }

  lemma PopHistory<B, X>(s: State<B, X>)
    requires Inv(s) && Enabled(s, Pop) && Shaped(Apply(s, Pop))
    ensures History(Apply(s, Pop))
  {
    hide Conserved, Local;
  }

  lemma CopyColumnKeeps<B, X>(s: State<B, X>)
    requires Inv(s) && Enabled(s, CopyColumn)
    ensures Inv(Apply(s, CopyColumn))
  {
  }

  lemma ReadValidKeeps<B, X>(s: State<B, X>)
    requires Inv(s) && Enabled(s, ReadValid)
    ensures Inv(Apply(s, ReadValid))
  {
    var b := s.store[s.consumer.held];
    assert s.consumer.data == b.buf[..s.size] == b.buf;
    assert Apply(s, ReadValid).store == s.store;
  }

  lemma ResetBlockLocal<B, X>(s: State<B, X>)
    requires Shaped(s) && Conserved(s) && Local(s) && Enabled(s, ResetBlock)
    ensures var s' := Apply(s, ResetBlock); Shaped(s') && Conserved(s') && Local(s')
  {
    Disjoint(s);
    assert Apply(s, ResetBlock).store.Keys == s.store.Keys;
  }

  lemma ResetBlockHistory<B, X>(s: State<B, X>)
    requires Inv(s) && Enabled(s, ResetBlock) && Shaped(Apply(s, ResetBlock))
    ensures History(Apply(s, ResetBlock))
  {
    hide Conserved, Local;
    Disjoint(s);
    SamplesFrame(s.store, Apply(s, ResetBlock).store, s.readQueue);
  }

  /** The push onto the write queue, whose result nobody looks at, cannot fail. */
  lemma RoomToReturn<B, X>(s: State<B, X>)
    requires Shaped(s) && Conserved(s) && !s.consumer.Idle?
    ensures |s.writeQueue| <= NUM_BLOCKS - 2
  {
    var all := multiset(s.pool) + multiset(s.readQueue) + multiset(s.writeQueue) + multiset{s.current}
               + multiset(InProducer(s.producer)) + multiset(InConsumer(s.consumer));
    assert |all| == |multiset(s.store.Keys)| == NUM_BLOCKS;
  }

  lemma GiveBackLocal<B, X>(s: State<B, X>)
    requires Shaped(s) && Conserved(s) && Local(s) && Enabled(s, GiveBack)
    ensures var s' := Apply(s, GiveBack); Shaped(s') && Conserved(s') && Local(s')
  {
    RoomToReturn(s);
  }

  lemma GiveBackHistory<B, X>(s: State<B, X>)
    requires Inv(s) && Enabled(s, GiveBack) && Shaped(Apply(s, GiveBack))
    ensures History(Apply(s, GiveBack))
  {
    hide Conserved;
  }

  lemma PushHistory<B, X>(s: State<B, X>)
    requires Shaped(s) && Enabled(s, PushCurrent) && Shaped(Apply(s, PushCurrent))
    requires var s' := Apply(s, PushCurrent); s'.accepted == All(s'.closed) + Pending(s') && Flow(s') == Kept(s'.closed)
    ensures History(Apply(s, PushCurrent))
  {
  }

  lemma LeaveCircularKeeps<B, X>(s: State<B, X>)
    requires Inv(s) && Enabled(s, LeaveCircular)
    ensures Inv(Apply(s, LeaveCircular))
  {
  }

  /** Every step of either thread keeps the invariant. */
  lemma StepKeeps<B, X>(s: State<B, X>, step: Step<X>)
    requires Inv(s) && Enabled(s, step)
    ensures Inv(Apply(s, step))
  {
    hide Local, History, Conserved, Apply, Shaped;
    match step
    case Add(x) => AddLocal(s, x); AddHistory(s, x);
    case BeginFlush(fromAdd) => BeginFlushKeeps(s, fromAdd);
    case CollectOne => CollectKeeps(s);
    case TakeBlock =>
      if s.pool != [] {
        TakeFromPoolLocal(s);
        TakeFromPoolHistory(s);
      } else if !s.circular {
        NoBlockKeeps(s);
      } else {
        EvictLocal(s);
        EvictHistory(s);
      }
    case PushCurrent => PushConserved(s); PushLocal(s); PushAccepted(s); PushFlow(s); PushHistory(s);
    case ResetAfterFlush => ResetAfterFlushLocal(s); ResetAfterFlushHistory(s);
    case Pop => PopLocal(s); PopHistory(s);
    case CopyColumn => CopyColumnKeeps(s);
    case ReadValid => ReadValidKeeps(s);
    case ResetBlock => ResetBlockLocal(s); ResetBlockHistory(s);
    case GiveBack => GiveBackLocal(s); GiveBackHistory(s);
    case LeaveCircular => LeaveCircularKeeps(s);
  }

  // ----- Runs -----

  ghost predicate Runs<B, X>(s: State<B, X>, steps: seq<Step<X>>)
    decreases |steps|
  {
    steps == [] || (Shaped(s) && Enabled(s, steps[0]) && Runs(Apply(s, steps[0]), steps[1..]))
  }

  ghost function Exec<B, X>(s: State<B, X>, steps: seq<Step<X>>): State<B, X>
    requires Runs(s, steps)
    decreases |steps|
  {
    if steps == [] then s else Exec(Apply(s, steps[0]), steps[1..])
  }

  /** All blocks free but the current one, nothing written. */
  ghost predicate Init<B, X>(s: State<B, X>) {
    && Shaped(s) && Conserved(s)
    && s.readQueue == [] && s.writeQueue == []
    && s.producer == Ready && s.consumer == Idle
    && s.store[s.current].idx == 0
    && s.accepted == [] && s.closed == [] && s.evicted == [] && s.delivered == []
  }

  /** Over every run of both threads: blocks are conserved, nothing is thrown, and the history law holds. */
  lemma {:induction false} RunKeeps<B, X>(s: State<B, X>, steps: seq<Step<X>>)
    requires Inv(s) && Runs(s, steps)
    ensures Inv(Exec(s, steps))
    decreases |steps|
  {
    hide Inv, Apply, Enabled;
    if steps != [] {
      StepKeeps(s, steps[0]);
      RunKeeps(Apply(s, steps[0]), steps[1..]);
    }
  }

  lemma InitInv<B, X>(s: State<B, X>)
    requires Init(s)
    ensures Inv(s)
  {
  }

  lemma {:induction false} RunAppend<B, X>(s: State<B, X>, steps: seq<Step<X>>, more: seq<Step<X>>)
    requires Runs(s, steps) && Runs(Exec(s, steps), more)
    ensures Runs(s, steps + more) && Exec(s, steps + more) == Exec(Exec(s, steps), more)
    decreases |steps|
  {
    hide Apply, Enabled, Shaped;
    if steps == [] {
      assert steps + more == more;
    } else {
      RunAppend(Apply(s, steps[0]), steps[1..], more);
      assert (steps + more)[1..] == steps[1..] + more;
    }
  }

  // ----- Loss -----

  /** add_elem finds the current block full and neither pool nor write queue has another. */
  ghost predicate Starved<B, X>(s: State<B, X>, step: Step<X>) {
    step.TakeBlock? && s.producer == Collect(true) && s.pool == [] && s.writeQueue == []
  }

  ghost predicate EverStarved<B, X>(s: State<B, X>, steps: seq<Step<X>>)
    requires Runs(s, steps)
    decreases |steps|
  {
    steps != [] && (Starved(s, steps[0]) || EverStarved(Apply(s, steps[0]), steps[1..]))
  }

  /** A block was discarded, or is about to be. */
  ghost predicate Lossy<B, X>(s: State<B, X>) {
    s.producer == ResetCurrent(false) || exists c :: c in s.closed && !c.kept
  }

  /** In producer-consumer mode a starved step is what discards a block. */
  lemma StepLossy<B, X>(s: State<B, X>, step: Step<X>)
    requires Inv(s) && Enabled(s, step)
    ensures Lossy(Apply(s, step)) <==> Lossy(s) || (Starved(s, step) && !s.circular)
  {
    hide Conserved, History;
    var s' := Apply(s, step);
    if |s'.closed| > |s.closed| {
      var c := s'.closed[|s.closed|];
      assert c in s'.closed;
      assert forall c' | c' in s'.closed :: c' in s.closed || c' == c;
      assert forall c' | c' in s.closed :: c' in s'.closed;
    }
    if step.PushCurrent? {
      RoomToRead(s);
    }
  }

  /** In circular mode it is what overwrites one. */
  lemma StepEvicts<B, X>(s: State<B, X>, step: Step<X>)
    requires Inv(s) && Enabled(s, step)
    ensures Apply(s, step).evicted != [] <==> s.evicted != [] || (Starved(s, step) && s.circular)
  {
    hide History;
    if step.TakeBlock? && s.pool == [] && s.circular {
      NoFreeBlock(s);
      assert s.readQueue[0] in s.readQueue;
      assert Valid(s.store[s.readQueue[0]]) != [];
    }
  }

  lemma {:induction false} RunLossy<B, X>(s: State<B, X>, steps: seq<Step<X>>)
    requires Inv(s) && Runs(s, steps)
    ensures Lossy(Exec(s, steps)) || Exec(s, steps).evicted != [] <==> Lossy(s) || s.evicted != [] || EverStarved(s, steps)
    decreases |steps|
  {
    hide Inv, Apply, Enabled, Lossy, Starved;
    if steps != [] {
      StepKeeps(s, steps[0]);
      StepLossy(s, steps[0]);
      StepEvicts(s, steps[0]);
      RunLossy(Apply(s, steps[0]), steps[1..]);
    }
  }

  /** In producer-consumer mode nothing is ever overwritten. */
  lemma {:induction false} NeverEvicts<B, X>(s: State<B, X>, steps: seq<Step<X>>)
    requires Runs(s, steps) && !s.circular && s.evicted == []
    ensures !Exec(s, steps).circular && Exec(s, steps).evicted == []
    decreases |steps|
  {
    if steps != [] {
      NeverEvicts(Apply(s, steps[0]), steps[1..]);
    }
  }

  lemma {:induction false} KeptAll<X>(cs: seq<Chunk<X>>, size: nat)
    requires 1 <= size && forall c | c in cs :: !c.kept ==> |c.samples| == size
    ensures |Kept(cs)| <= |All(cs)|
    ensures (forall c | c in cs :: c.kept) ==> Kept(cs) == All(cs)
    ensures (exists c :: c in cs && !c.kept) ==> |Kept(cs)| < |All(cs)|
  {
    if cs != [] {
      var n := |cs| - 1;
      KeptAll(cs[..n], size);
      assert cs == cs[..n] + [cs[n]];
    }
  }

  /** The samples accepted are, in order, read, in the reader's hand, queued or in the current block
      if and only if no add_elem of the run was starved, in either mode and through a change of mode. */
  lemma LosslessIffNeverStarved<B, X>(s: State<B, X>, steps: seq<Step<X>>)
    requires Init(s) && Runs(s, steps)
    requires Exec(s, steps).producer != ResetCurrent(false)
    ensures var s' := Exec(s, steps);
            Shaped(s') && (s'.accepted == Stream(s') + Pending(s') <==> !EverStarved(s, steps))
  {
    InitInv(s);
    RunKeeps(s, steps);
    RunLossy(s, steps);
    NothingMissing(Exec(s, steps));
    hide EverStarved, Runs, Exec, Inv, Stream, Pending;
  }

  lemma NothingMissing<B, X>(s: State<B, X>)
    requires Inv(s) && s.producer != ResetCurrent(false)
    ensures s.accepted == Stream(s) + Pending(s) <==> !Lossy(s) && s.evicted == []
  {
    hide Conserved, InHand, Samples, Pending, All, Kept;
    KeptAll(s.closed, s.size);
    assert Flow(s) == s.evicted + Stream(s);
    Longer(s.evicted, Stream(s));
  }

  lemma Longer<X>(e: seq<X>, s: seq<X>)
    ensures |e + s| == |e| + |s|
    ensures e == [] ==> e + s == s
  {
  }

  /** An add_elem is starved only while the reader is 19 blocks behind. */
  lemma StarvedMeansReaderBehind<B, X>(s: State<B, X>, step: Step<X>)
    requires Inv(s) && Enabled(s, step) && Starved(s, step)
    ensures |s.readQueue| + |InConsumer(s.consumer)| == NUM_BLOCKS - 1
  {
    NoFreeBlock(s);
  }

  // ----- Circular mode -----

  /** In circular mode nothing is read and only full blocks are queued. */
  ghost predicate Ring<B, X>(s: State<B, X>)
    requires Shaped(s)
  {
    s.circular ==>
      && s.writeQueue == [] && s.consumer.Idle?
      && (forall b | b in s.readQueue :: s.store[b].idx == s.size)
      && (s.producer.Push? ==> s.store[s.current].idx == s.size && s.producer.fromAdd)
      && (s.evicted != [] ==> s.pool == [])
  }

  lemma StepKeepsRing<B, X>(s: State<B, X>, step: Step<X>)
    requires Inv(s) && Ring(s) && Enabled(s, step)
    requires Inv(Apply(s, step))
    ensures Ring(Apply(s, step))
  {
    hide Conserved, History;
    Disjoint(s);
    if step.TakeBlock? && s.pool != [] {
      assert s.pool[|s.pool| - 1] in s.pool;
    }
  }

  lemma {:induction false} RunKeepsRing<B, X>(s: State<B, X>, steps: seq<Step<X>>)
    requires Inv(s) && Ring(s) && Runs(s, steps)
    ensures Inv(Exec(s, steps)) && Ring(Exec(s, steps))
    decreases |steps|
  {
    hide Inv, Apply, Enabled, Ring;
    if steps != [] {
      StepKeeps(s, steps[0]);
      StepKeepsRing(s, steps[0]);
      RunKeepsRing(Apply(s, steps[0]), steps[1..]);
    }
  }

  lemma {:induction false} FullSamples<B, X>(store: map<B, Block<X>>, q: seq<B>, size: nat)
    requires forall b | b in q :: b in store && |store[b].buf| == size && store[b].idx == size
    ensures |Samples(store, q)| == |q| * size
  {
    if q != [] {
      FullSamples(store, q[1..], size);
      assert |q| * size == size + (|q| - 1) * size;
    }
  }

  /** In circular mode only the oldest samples are gone, in order, and only once 19 full blocks and
      the current one hold all that came later. */
  lemma CircularKeepsNewest<B, X>(s: State<B, X>, steps: seq<Step<X>>)
    requires Init(s) && Runs(s, steps)
    requires var s' := Exec(s, steps); s'.circular && s'.producer == Ready
    ensures var s' := Exec(s, steps);
            && Shaped(s')
            && s'.accepted == s'.evicted + Samples(s'.store, s'.readQueue) + Pending(s')
            && (s'.evicted != [] ==> |s'.accepted| - |s'.evicted| == (NUM_BLOCKS - 1) * s.size + s'.store[s'.current].idx)
  {
    InitInv(s);
    RunKeepsRing(s, steps);
    RunSize(s, steps);
    CircularShape(Exec(s, steps));
    hide Inv, Ring, Runs, Exec, Shaped, Samples;
  }

  lemma CircularShape<B, X>(s: State<B, X>)
    requires Inv(s) && Ring(s) && s.circular && s.producer == Ready
    ensures s.accepted == s.evicted + Samples(s.store, s.readQueue) + Pending(s)
    ensures s.evicted != [] ==> |Samples(s.store, s.readQueue)| == (NUM_BLOCKS - 1) * s.size
    ensures |Pending(s)| == s.store[s.current].idx
  {
    KeptAll(s.closed, s.size);
    if s.evicted != [] {
      AllQueued(s);
      FullSamples(s.store, s.readQueue, s.size);
    }
  }

  lemma AllQueued<B, X>(s: State<B, X>)
    requires Shaped(s) && Conserved(s) && s.producer == Ready && s.consumer == Idle && s.pool == s.writeQueue == []
    ensures |s.readQueue| == NUM_BLOCKS - 1
  {
    var all := multiset(s.pool) + multiset(s.readQueue) + multiset(s.writeQueue) + multiset{s.current}
               + multiset(InProducer(s.producer)) + multiset(InConsumer(s.consumer));
    assert |all| == |multiset(s.store.Keys)| == NUM_BLOCKS;
  }

  lemma {:induction false} RunSize<B, X>(s: State<B, X>, steps: seq<Step<X>>)
    requires Runs(s, steps)
    ensures Exec(s, steps).size == s.size
    decreases |steps|
  {
    if steps != [] {
      RunSize(Apply(s, steps[0]), steps[1..]);
    }
  }
}
