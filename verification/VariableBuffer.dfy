/** One logged variable: the producer's and the consumer's calls on blocks in the heap.

    Each method is proved to do what a list of steps of the block-exchange machine does, so that all
    that is proved of the machine's runs holds of it. */
module VariableBuffer {
  import opened BlockExchange
  import opened Sequential

  /** One sample, flattened to a column. */
  type Sample = seq<real>

  class BufferBlock {
    var writeIdx: nat
    const buf: array<Sample>

    constructor (blockSize: nat)
      ensures fresh(buf) && buf.Length == blockSize && writeIdx == 0
    {
      writeIdx := 0;
      buf := new Sample[blockSize];
    }

    ghost function View(): Block<Sample>
      reads this, buf
    {
      Block(buf[..], writeIdx)
    }

    /** False: the block is full. */
    method Add(data: Sample) returns (ok: bool)
      requires writeIdx <= buf.Length
      modifies this, buf
      ensures ok <==> old(writeIdx) < buf.Length
      ensures ok ==> View() == Block(old(buf[..])[old(writeIdx) := data], old(writeIdx) + 1)
      ensures !ok ==> View() == old(View())
    {
      if writeIdx == buf.Length {
        return false;
      }
      buf[writeIdx] := data;
      writeIdx := writeIdx + 1;
      return true;
    }

    method Reset()
      modifies this
      ensures View() == old(View()).(idx := 0)
    {
      writeIdx := 0;
    }
  }

  lemma {:induction false} DistinctMultiset<T>(q: seq<T>)
    requires forall i, j | 0 <= i < j < |q| :: q[i] != q[j]
    ensures multiset(q) == multiset(set x | x in q)
  {
    if q != [] {
      var n := |q| - 1;
      DistinctMultiset(q[..n]);
      assert q == q[..n] + [q[n]];
      assert (set x | x in q) == (set x | x in q[..n]) + {q[n]};
      assert q[n] !in q[..n];
    }
  }

  class VariableBuffer {
    const rows: nat
    const cols: nat
    const blockSize: nat
    var circular: bool
    var currentBlock: BufferBlock
    var blockPool: seq<BufferBlock>
    var readQueue: seq<BufferBlock>
    var writeQueue: seq<BufferBlock>
    ghost const blocks: set<BufferBlock>
    ghost var producer: Producer<BufferBlock>
    ghost var accepted: seq<Sample>
    ghost var closed: seq<Chunk<Sample>>
    ghost var evicted: seq<Sample>
    ghost var delivered: seq<Sample>

    constructor (rows: nat, cols: nat, blockSize: nat)
      requires 1 <= blockSize
      ensures Valid() && Init(Abs()) && !circular && fresh(Repr())
      ensures this.rows == rows && this.cols == cols && this.blockSize == blockSize
    {
      hide Init, Inv;
      this.rows, this.cols, this.blockSize := rows, cols, blockSize;
      circular := false;
      var pool := AllocateBlocks(blockSize);
      // the last block of the pool becomes the current one
      blockPool := pool[..NUM_BLOCKS - 1];
      currentBlock := pool[NUM_BLOCKS - 1];
      readQueue, writeQueue := [], [];
      blocks := set b | b in pool;
      producer := Ready;
      accepted, closed, evicted, delivered := [], [], [], [];
      new;
      StartsInit(Abs(), pool);
      InitInv(Abs());
    }

    static method AllocateBlocks(blockSize: nat) returns (pool: seq<BufferBlock>)
      ensures |pool| == NUM_BLOCKS
      ensures forall b | b in pool :: fresh(b) && fresh(b.buf) && b.buf.Length == blockSize && b.writeIdx == 0
      ensures forall i, j | 0 <= i < j < |pool| :: pool[i] != pool[j] && pool[i].buf != pool[j].buf
    {
      pool := [];
      for n := 0 to NUM_BLOCKS
        invariant |pool| == n
        invariant forall b | b in pool :: fresh(b) && fresh(b.buf) && b.buf.Length == blockSize && b.writeIdx == 0
        invariant forall i, j | 0 <= i < j < n :: pool[i] != pool[j] && pool[i].buf != pool[j].buf
      {
        var b := new BufferBlock(blockSize);
        pool := pool + [b];
      }
    }

    ghost function Repr(): set<object>
    {
      {this} + blocks + set b | b in blocks :: b.buf
    }

    ghost function Views(): map<BufferBlock, Block<Sample>>
      reads blocks, set b | b in blocks :: b.buf
    {
      map b | b in blocks :: b.View()
    }

    /** The machine's state, between calls of either thread. */
    ghost function Abs(): State<BufferBlock, Sample>
      reads this, blocks, set b | b in blocks :: b.buf
    {
      State(circular, blockSize, Views(), blockPool, readQueue, writeQueue, currentBlock, producer, Idle,
            accepted, closed, evicted, delivered)
    }

    ghost predicate Separate()
    {
      forall b, b' | b in blocks && b' in blocks && b != b' :: b.buf != b'.buf
    }

    ghost predicate Valid()
      reads this, blocks, set b | b in blocks :: b.buf
    {
      Separate() && Inv(Abs())
    }

    lemma AbsFields()
      ensures Abs().circular == circular && Abs().readQueue == readQueue && Abs().current == currentBlock
      ensures Abs().pool == blockPool && Abs().writeQueue == writeQueue && Abs().producer == producer
      ensures Abs().size == blockSize && Abs().consumer == Idle
      ensures Abs().store.Keys == blocks
      ensures forall b | b in blocks :: Abs().store[b] == b.View()
    {
    }

    /** get_new_block, its first half: returned blocks join the pool. */
    method CollectReturned()
      modifies this`blockPool, this`writeQueue
      ensures Abs() == Collected(old(Abs()))
    {
      ghost var p := blockPool + writeQueue;
      while writeQueue != []
        invariant blockPool + writeQueue == p
        decreases |writeQueue|
      {
        assert writeQueue == [writeQueue[0]] + writeQueue[1..];
        blockPool := blockPool + [writeQueue[0]];
        writeQueue := writeQueue[1..];
      }
      assert blockPool == p;
    }

    /** get_new_block, its second half: the last block of the pool is handed out. */
    method TakeLast() returns (block: BufferBlock)
      requires blockPool != [] && blockPool[|blockPool| - 1] in blocks
      modifies this`blockPool, blocks
      ensures block == old(blockPool)[|old(blockPool)| - 1]
      ensures Abs() == LastTaken(old(Abs()))
    {
      block := blockPool[|blockPool| - 1];
      block.Reset();
      blockPool := blockPool[..|blockPool| - 1];
      assert Views() == old(Views())[block := block.View()];
    }

    /** Circular mode: the oldest block leaves the read queue to be written again. */
    method PopOldest() returns (oldest: BufferBlock)
      requires readQueue != [] && readQueue[0] in blocks && readQueue[0].writeIdx <= readQueue[0].buf.Length
      modifies this`readQueue, this`evicted
      ensures oldest == old(readQueue[0])
      ensures Abs() == OldestPopped(old(Abs()))
    {
      oldest := readQueue[0];
      readQueue := readQueue[1..];
      evicted := evicted + BlockExchange.Valid(oldest.View());
    }

    /** The current block goes to the reader, `next` takes its place. */
    method PushCurrent(next: BufferBlock, ghost fromAdd: bool)
      requires |readQueue| < NUM_BLOCKS
      requires currentBlock in blocks && currentBlock.writeIdx <= currentBlock.buf.Length
      modifies this`readQueue, this`closed, this`currentBlock, this`producer
      ensures Abs() == CurrentPushed(old(Abs()), next, fromAdd)
    {
      if |readQueue| == NUM_BLOCKS {
        // failed to push current block
        assert false;
      }
      readQueue := readQueue + [currentBlock];
      closed := closed + [Chunk(BlockExchange.Valid(currentBlock.View()), true)];
      currentBlock := next;
      producer := if fromAdd then ResetCurrent(true) else Ready;
    }

    ghost method GiveUp(fromAdd: bool)
      modifies this`producer
      ensures Abs() == GivenUp(old(Abs()), fromAdd)
    {
      producer := if fromAdd then ResetCurrent(false) else Ready;
    }

    /** flush_to_queue. False: no block to go on with; the current one stays. */
    method FlushToQueue(ghost fromAdd: bool) returns (ok: bool)
      requires Valid() && producer == Ready
      requires 0 < currentBlock.writeIdx ==> Enabled(Abs(), BeginFlush(fromAdd))
      modifies Repr()
      ensures old(currentBlock.writeIdx) == 0 ==> ok && Abs() == old(Abs())
      ensures 0 < old(currentBlock.writeIdx) ==>
        (ok <==> HasNext(old(Abs()))) && Abs() == FlushResult(old(Abs()), fromAdd)
      ensures Valid()
    {
      hide Inv, FlushResult, HasNext, Enabled, Abs, Views, BlockExchange.Valid;
      if currentBlock.writeIdx == 0 {
        return true;
      }
      AbsFields();
      FlushFacts(Abs(), fromAdd);
      var newBlock: BufferBlock?;
      CollectReturned();
      AbsFields();
      if blockPool != [] {
        newBlock := TakeLast();
      } else if !circular {
        GiveUp(fromAdd);
        return false;
      } else {
        if readQueue == [] {
          // failed to pop a new block
          assert false;
        }
        newBlock := PopOldest();
      }
      AbsFields();
      PushCurrent(newBlock, fromAdd);
      return true;
    }

    /** What follows a flush in add_elem: the current block starts over. */
    method StartOver()
      requires producer.ResetCurrent? && Shaped(Abs())
      modifies this`closed, this`producer, currentBlock
      ensures Abs() == Emptied(old(Abs()))
    {
      if !producer.closed {
        closed := closed + [Chunk(BlockExchange.Valid(currentBlock.View()), false)];
      }
      currentBlock.Reset();
      producer := Ready;
      assert Views() == old(Views())[currentBlock := currentBlock.View()];
    }

    /** Writes into the current block, which has room. */
    method Store(data: Sample) returns (added: bool)
      requires Separate() && Shaped(Abs())
      modifies this`accepted, currentBlock, currentBlock.buf
      ensures added <==> old(currentBlock.writeIdx) < blockSize
      ensures added ==> old(Abs().store[currentBlock].idx) < blockSize && Abs() == Stored(old(Abs()), data)
      ensures !added ==> Abs() == old(Abs())
    {
      assert currentBlock.buf.Length == |Abs().store[currentBlock].buf| == blockSize;
      added := currentBlock.Add(data);
      assert Views() == old(Views())[currentBlock := currentBlock.View()];
      if added {
        accepted := accepted + [data];
      }
    }

    /** add_elem. False: the sample has the wrong size. */
    method AddElem(data: Sample) returns (ok: bool)
      requires Valid() && producer == Ready
      modifies Repr()
      ensures Valid() && producer == Ready
      ensures ok <==> |data| == rows * cols
      ensures ok ==> Abs() == AddResult(old(Abs()), data)
      ensures !ok ==> Abs() == old(Abs())
    {
      if |data| != rows * cols {
        return false;
      }
      AddIsRun(Abs(), data);
      var added := Store(data);
      if !added {
        FlushReady(Abs());
        var _ := FlushToQueue(true);
        StartOver();
        // the call made again on the emptied block
        added := Store(data);
      }
      return true;
    }

    /** read_block: copies the oldest queued block out and sends it back. `valid` == 0: none was queued. */
    method ReadBlock() returns (threw: bool, data: seq<Sample>, valid: nat)
      requires Valid() && producer == Ready
      modifies Repr()
      ensures Valid() && producer == Ready
      ensures threw <==> old(circular)
      ensures threw ==> Abs() == old(Abs())
      ensures !threw ==> Abs() == ReadResult(old(Abs()))
      ensures !threw && old(readQueue) == [] ==> valid == 0
      ensures !threw && old(readQueue) != [] ==>
        0 < valid <= |data| && data[..valid] == BlockExchange.Valid(old(Abs()).store[old(readQueue)[0]])
    {
      hide Inv, BlockExchange.Valid;
      threw, data, valid := circular, [], 0;
      if circular {
        return;
      }
      ReadFacts(Abs());
      if readQueue != [] {
        var block := readQueue[0];
        readQueue := readQueue[1..];
        data := block.buf[..];
        valid := block.writeIdx;
        ValidColumns(block.View());
        delivered := delivered + BlockExchange.Valid(block.View());
        block.Reset();
        // the result of this push is ignored
        if |writeQueue| < NUM_BLOCKS {
          writeQueue := writeQueue + [block];
        }
        assert Views() == old(Views())[block := block.View()];
      }
    }

    /** The loop of flush_available_data for one variable: blocks are read and written out until none
        is queued. */
    method Drain() returns (threw: bool, written: seq<Sample>)
      requires Valid() && producer == Ready
      modifies Repr()
      ensures Valid() && producer == Ready
      ensures threw <==> old(circular)
      ensures threw ==> Abs() == old(Abs()) && written == []
      ensures !threw ==> Abs() == DrainResult(old(Abs()))
      ensures !threw ==> written == Queued(old(Abs()))
    {
      hide Inv, ReadResult, DrainResult, BlockExchange.Valid, Queued, Abs, Views;
      written := [];
      AbsFields();
      DrainStart(Abs());
      var data: seq<Sample>;
      var valid: nat;
      threw, data, valid := ReadBlock();
      AbsFields();
      if threw {
        return;
      }
      while 0 < valid
        invariant Valid() && producer == Ready && !circular && !threw && valid <= |data|
        invariant Abs().consumer == Idle && !Abs().circular && DrainResult(Abs()) == DrainResult(old(Abs()))
        invariant Queued(old(Abs())) == written + data[..valid] + Queued(Abs())
        invariant valid == 0 ==> readQueue == []
        decreases |readQueue|, valid
      {
        written := written + data[..valid];
        AbsFields();
        DrainStart(Abs());
        threw, data, valid := ReadBlock();
        AbsFields();
      }
      AbsFields();
      DrainStart(Abs());
    }

    /** set_buffer_mode. The circular mode is entered before anything is read or discarded. */
    method SetBufferMode(toCircular: bool)
      requires Valid() && producer == Ready
      requires toCircular ==> circular || (delivered == [] && forall c | c in closed :: c.kept)
      modifies this`circular
      ensures Valid() && producer == Ready
      ensures Abs() == old(Abs()).(circular := toCircular)
    {
      hide Inv;
      ModeFacts(Abs(), toCircular);
      circular := toCircular;
    }
  }

  lemma ValidColumns(b: Block<Sample>)
    requires b.idx <= |b.buf|
    ensures BlockExchange.Valid(b) == b.buf[..b.idx]
  {
  }

  lemma DrainStart(s: State<BufferBlock, Sample>)
    requires Inv(s) && s.consumer == Idle
    ensures !s.circular && s.readQueue == [] ==>
      DrainResult(s) == s && ReadResult(s) == s && Queued(s) == []
    ensures !s.circular && s.readQueue != [] ==>
      var r := ReadResult(s);
      && Inv(r) && r.consumer == Idle && !r.circular && DrainResult(s) == DrainResult(r)
      && Queued(s) == BlockExchange.Valid(s.store[s.readQueue[0]]) + Queued(r)
      && |r.readQueue| < |s.readQueue|
  {
    hide Inv;
    if !s.circular {
      if s.readQueue == [] {
        NothingQueued(s);
      } else {
        ReadSamples(s);
      }
    }
  }

  lemma ModeFacts(s: State<BufferBlock, Sample>, toCircular: bool)
    requires Inv(s) && s.producer == Ready && s.consumer == Idle
    requires toCircular ==> s.circular || (s.delivered == [] && forall c | c in s.closed :: c.kept)
    ensures Inv(s.(circular := toCircular))
  {
    hide Conserved, History;
    if s.circular && !toCircular {
      StepKeeps(s, LeaveCircular);
    }
    assert Conserved(s.(circular := toCircular)) by { SameBlocks(s, toCircular); }
    assert History(s.(circular := toCircular)) by { SameHistory(s, toCircular); }
  }

  lemma SameBlocks(s: State<BufferBlock, Sample>, toCircular: bool)
    requires Conserved(s)
    ensures Conserved(s.(circular := toCircular))
  {
  }

  lemma SameHistory(s: State<BufferBlock, Sample>, toCircular: bool)
    requires Shaped(s) && History(s)
    ensures Shaped(s.(circular := toCircular)) && History(s.(circular := toCircular))
  {
  }

  lemma ReadFacts(s: State<BufferBlock, Sample>)
    requires Inv(s) && s.consumer == Idle && !s.circular
    ensures Inv(ReadResult(s))
    ensures |s.writeQueue| < NUM_BLOCKS || s.readQueue == []
    ensures s.readQueue != [] ==>
      var b := s.readQueue[0];
      b in s.store && 0 < s.store[b].idx <= |s.store[b].buf|
  {
    ReadIsRun(s);
    if s.readQueue != [] {
      assert s.readQueue[0] in s.readQueue;
      PopLocal(s);
      RoomToReturn(Apply(s, Pop));
    }
  }

  lemma StartsInit(s: State<BufferBlock, Sample>, pool: seq<BufferBlock>)
    requires |pool| == NUM_BLOCKS && forall i, j | 0 <= i < j < |pool| :: pool[i] != pool[j]
    requires s.store.Keys == (set b | b in pool) && 1 <= s.size
    requires forall b | b in pool :: b in s.store && s.store[b].idx == 0 && |s.store[b].buf| == s.size
    requires s.pool == pool[..NUM_BLOCKS - 1] && s.current == pool[NUM_BLOCKS - 1]
    requires s.readQueue == s.writeQueue == [] && s.producer == Ready && s.consumer == Idle
    requires s.accepted == s.evicted == s.delivered == [] && s.closed == []
    ensures Init(s)
  {
    assert pool == s.pool + [s.current];
    DistinctMultiset(pool);
    DistinctSize(pool);
    assert |s.store| == |s.store.Keys|;
  }

  lemma {:induction false} DistinctSize<T>(q: seq<T>)
    requires forall i, j | 0 <= i < j < |q| :: q[i] != q[j]
    ensures |set x | x in q| == |q|
  {
    DistinctMultiset(q);
    assert |multiset(set x | x in q)| == |set x | x in q|;
  }

  // ----- The parts of a flush -----

  ghost function LastTaken(s: State<BufferBlock, Sample>): State<BufferBlock, Sample>
    requires s.pool != [] && s.pool[|s.pool| - 1] in s.store
  {
    var b := s.pool[|s.pool| - 1];
    s.(pool := s.pool[..|s.pool| - 1], store := s.store[b := s.store[b].(idx := 0)])
  }

  ghost function OldestPopped(s: State<BufferBlock, Sample>): State<BufferBlock, Sample>
    requires s.readQueue != [] && s.readQueue[0] in s.store
    requires s.store[s.readQueue[0]].idx <= |s.store[s.readQueue[0]].buf|
  {
    s.(readQueue := s.readQueue[1..], evicted := s.evicted + BlockExchange.Valid(s.store[s.readQueue[0]]))
  }

  ghost function CurrentPushed(s: State<BufferBlock, Sample>, next: BufferBlock, fromAdd: bool): State<BufferBlock, Sample>
    requires s.current in s.store && s.store[s.current].idx <= |s.store[s.current].buf|
  {
    s.(readQueue := s.readQueue + [s.current],
       current := next,
       producer := if fromAdd then ResetCurrent(true) else Ready,
       closed := s.closed + [Chunk(BlockExchange.Valid(s.store[s.current]), true)])
  }

  ghost function GivenUp(s: State<BufferBlock, Sample>, fromAdd: bool): State<BufferBlock, Sample> {
    s.(producer := if fromAdd then ResetCurrent(false) else Ready)
  }

  /** What each part of a flush may rely on, and that together they are the machine's flush. */
  lemma FlushFacts(s: State<BufferBlock, Sample>, fromAdd: bool)
    requires Inv(s) && s.producer == Ready && Enabled(s, BeginFlush(fromAdd))
    ensures Inv(FlushResult(s, fromAdd))
    ensures |s.readQueue| < NUM_BLOCKS
    ensures s.current in s.store && s.store[s.current].idx <= |s.store[s.current].buf|
    ensures var c := Collected(s);
            && (HasNext(s) <==> c.pool != [] || c.circular)
            && (c.pool != [] ==>
                  && c.pool[|c.pool| - 1] in c.store && c.pool[|c.pool| - 1] != c.current
                  && FlushResult(s, fromAdd) == CurrentPushed(LastTaken(c), c.pool[|c.pool| - 1], fromAdd))
            && (c.pool == [] && c.circular ==>
                  && c.readQueue != [] && c.readQueue[0] in c.store
                  && c.store[c.readQueue[0]].idx <= |c.store[c.readQueue[0]].buf|
                  && FlushResult(s, fromAdd) == CurrentPushed(OldestPopped(c), c.readQueue[0], fromAdd))
            && (c.pool == [] && !c.circular ==> FlushResult(s, fromAdd) == GivenUp(c, fromAdd))
  {
    FlushIsRun(s, fromAdd);
    hide Conserved, Local, History, FlushSteps, Runs, Exec;
    Disjoint(s);
    QueueSizes(s);
    var c := Collected(s);
    if c.pool != [] {
      assert c.pool[|c.pool| - 1] in c.pool;
    } else if c.circular {
      assert s.readQueue[0] in s.readQueue;
    }
  }

  lemma QueueSizes(s: State<BufferBlock, Sample>)
    requires Shaped(s) && Conserved(s) && s.producer == Ready
    ensures |s.readQueue| < NUM_BLOCKS
    ensures s.pool == s.writeQueue == [] && s.consumer.Idle? ==> s.readQueue != []
  {
    var all := multiset(s.pool) + multiset(s.readQueue) + multiset(s.writeQueue) + multiset{s.current}
               + multiset(InProducer(s.producer)) + multiset(InConsumer(s.consumer));
    assert |all| == |multiset(s.store.Keys)| == NUM_BLOCKS;
  }
}
