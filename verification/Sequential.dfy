/** Calls of one thread at a time, as uninterrupted runs of the block-exchange machine.

    Each `...Steps` function lists the steps of one call; the lemmas beside it show that the list is
    a run and where it ends. */
module Sequential {
  import opened BlockExchange

  function Repeat<X>(step: Step<X>, n: nat): (r: seq<Step<X>>)
    ensures |r| == n
  {
    if n == 0 then [] else [step] + Repeat(step, n - 1)
  }

  lemma Then<B, X>(s: State<B, X>, step: Step<X>, steps: seq<Step<X>>)
    requires Shaped(s) && Enabled(s, step) && Runs(Apply(s, step), steps)
    ensures Runs(s, [step] + steps)
    ensures Exec(s, [step] + steps) == Exec(Apply(s, step), steps)
  {
    assert ([step] + steps)[1..] == steps;
  }

  lemma Single<B, X>(s: State<B, X>, step: Step<X>)
    requires Shaped(s) && Enabled(s, step)
    ensures Runs(s, [step]) && Exec(s, [step]) == Apply(s, step)
  {
    assert [step][1..] == [];
  }

  // ----- flush_to_queue -----

  function Collected<B, X>(s: State<B, X>): State<B, X> {
    s.(pool := s.pool + s.writeQueue, writeQueue := [])
  }

  lemma {:induction false} CollectAll<B, X>(s: State<B, X>)
    requires Shaped(s) && s.producer.Collect?
    ensures Runs(s, Repeat(CollectOne, |s.writeQueue|))
    ensures Exec(s, Repeat(CollectOne, |s.writeQueue|)) == Collected(s)
    decreases |s.writeQueue|
  {
    if s.writeQueue == [] {
      assert s.pool + s.writeQueue == s.pool;
    } else {
      var s' := Apply(s, CollectOne);
      CollectAll(s');
      Then(s, CollectOne, Repeat(CollectOne, |s'.writeQueue|));
      assert s'.pool + s'.writeQueue == s.pool + s.writeQueue by {
        assert s.writeQueue == [s.writeQueue[0]] + s.writeQueue[1..];
      }
    }
  }

  /** Whether the flush finds a block to go on with. */
  predicate HasNext<B(==), X>(s: State<B, X>) {
    s.pool != [] || s.writeQueue != [] || s.circular
  }

  ghost function FlushSteps<B, X>(s: State<B, X>, fromAdd: bool): seq<Step<X>> {
    [BeginFlush(fromAdd)] + (Repeat(CollectOne, |s.writeQueue|) + ([TakeBlock] + if HasNext(s) then [PushCurrent] else []))
  }

  function FlushResult<B, X>(s: State<B, X>, fromAdd: bool): State<B, X>
    requires Inv(s) && s.producer == Ready && Enabled(s, BeginFlush(fromAdd))
  {
    var t := Taken(Collected(s.(producer := Collect(fromAdd))));
    if HasNext(s) && t.producer.Push? then Pushed(t, Valid(s.store[s.current])) else t
  }

  function Pushed<B, X>(t: State<B, X>, samples: seq<X>): State<B, X>
    requires t.producer.Push?
  {
    t.(readQueue := t.readQueue + [t.current],
       current := t.producer.taken,
       producer := if t.producer.fromAdd then ResetCurrent(true) else Ready,
       closed := t.closed + [Chunk(samples, true)])
  }

  lemma FlushIsRun<B, X>(s: State<B, X>, fromAdd: bool)
    requires Inv(s) && s.producer == Ready && Enabled(s, BeginFlush(fromAdd))
    ensures Runs(s, FlushSteps(s, fromAdd))
    ensures Exec(s, FlushSteps(s, fromAdd)) == FlushResult(s, fromAdd)
    ensures Inv(FlushResult(s, fromAdd))
    ensures FlushResult(s, fromAdd).producer ==
            if !HasNext(s) && fromAdd then ResetCurrent(false) else if fromAdd then ResetCurrent(true) else Ready
  {
    var s1 := Apply(s, BeginFlush(fromAdd));
    StepKeeps(s, BeginFlush(fromAdd));
    CollectAll(s1);
    var collect := Repeat<X>(CollectOne, |s.writeQueue|);
    RunKeeps(s1, collect);
    var s2 := Collected(s1);
    var rest := [TakeBlock] + if HasNext(s) then [PushCurrent] else [];
    TakeAndPush(s2, HasNext(s));
    RunAppend(s1, collect, rest);
    Then(s, BeginFlush(fromAdd), collect + rest);
    RunKeeps(s2, rest);
    hide Inv, Runs, Exec;
  }

  lemma TakeNext<B, X>(s: State<B, X>)
    requires Inv(s) && s.producer.Collect? && s.writeQueue == []
    ensures Inv(Taken(s)) && Taken(s).current == s.current && Taken(s).store[s.current] == s.store[s.current]
    ensures if s.pool != [] || s.circular then Taken(s).producer.Push? && Taken(s).producer.fromAdd == s.producer.fromAdd
            else Taken(s).producer == if s.producer.fromAdd then ResetCurrent(false) else Ready
  {
    StepKeeps(s, TakeBlock);
    Disjoint(s);
    if s.pool != [] {
      assert s.pool[|s.pool| - 1] in s.pool;
    }
  }

  lemma PushNext<B, X>(t: State<B, X>)
    requires Inv(t) && t.producer.Push?
    ensures Shaped(t) && Enabled(t, PushCurrent)
    ensures Apply(t, PushCurrent) == Pushed(t, Valid(t.store[t.current])) && Inv(Apply(t, PushCurrent))
  {
    RoomToRead(t);
    StepKeeps(t, PushCurrent);
  }

  lemma TakeAndPush<B, X>(s: State<B, X>, next: bool)
    requires Inv(s) && s.producer.Collect? && s.writeQueue == []
    requires next <==> s.pool != [] || s.circular
    ensures var rest := [TakeBlock] + if next then [PushCurrent] else [];
            && Runs(s, rest)
            && next == Taken(s).producer.Push?
            && Exec(s, rest) == if next then Pushed(Taken(s), Valid(s.store[s.current])) else Taken(s)
  {
    TakeNext(s);
    TakeIsApply(s);
    hide Taken, Apply, Enabled, Inv;
    if next {
      PushOne(Taken(s));
      Then(s, TakeBlock, [PushCurrent]);
    } else {
      Then(s, TakeBlock, []);
    }
  }

  lemma TakeIsApply<B, X>(s: State<B, X>)
    requires Inv(s) && s.producer.Collect? && s.writeQueue == []
    ensures Shaped(s) && Enabled(s, TakeBlock) && Apply(s, TakeBlock) == Taken(s)
  {
  }

  lemma PushOne<B, X>(t: State<B, X>)
    requires Inv(t) && t.producer.Push?
    ensures Runs(t, [PushCurrent]) && Exec(t, [PushCurrent]) == Pushed(t, Valid(t.store[t.current]))
  {
    PushNext(t);
    hide Inv, Pushed, Apply, Enabled, Shaped, Runs, Exec;
    Single(t, PushCurrent);
  }

  // ----- add_elem -----

  ghost function AddSteps<B, X>(s: State<B, X>, x: X): seq<Step<X>>
    requires Shaped(s)
  {
    if s.store[s.current].idx < s.size then [Add(x)]
    else FlushSteps(s, true) + [ResetAfterFlush, Add(x)]
  }

  /** The current block emptied behind a flush; what it held was discarded unless it was queued. */
  function Emptied<B, X>(f: State<B, X>): State<B, X>
    requires Shaped(f) && f.producer.ResetCurrent?
  {
    var b := f.store[f.current];
    f.(store := f.store[f.current := b.(idx := 0)],
       producer := Ready,
       closed := if f.producer.closed then f.closed else f.closed + [Chunk(Valid(b), false)])
  }

  function Stored<B, X>(s: State<B, X>, x: X): State<B, X>
    requires Shaped(s) && s.store[s.current].idx < s.size
  {
    var b := s.store[s.current];
    s.(store := s.store[s.current := Block(b.buf[b.idx := x], b.idx + 1)], accepted := s.accepted + [x])
  }

  ghost function AddResult<B, X>(s: State<B, X>, x: X): State<B, X>
    requires Inv(s) && s.producer == Ready
  {
    if s.store[s.current].idx < s.size then Stored(s, x)
    else
      FlushReady(s);
      Stored(Emptied(FlushResult(s, true)), x)
  }

  lemma FlushReady<B, X>(s: State<B, X>)
    requires Inv(s) && s.producer == Ready && s.store[s.current].idx == s.size
    ensures Enabled(s, BeginFlush(true))
    ensures var f := FlushResult(s, true);
            && Shaped(f) && f.producer.ResetCurrent?
            && Shaped(Emptied(f)) && Emptied(f).store[f.current].idx < f.size
  {
    FlushIsRun(s, true);
    hide FlushResult, Emptied, FlushSteps, Runs, Exec, HasNext, Conserved, Local, History;
    EmptiedShaped(FlushResult(s, true));
  }

  lemma EmptiedShaped<B, X>(f: State<B, X>)
    requires Shaped(f) && f.producer.ResetCurrent?
    ensures var e := Emptied(f); Shaped(e) && e.current == f.current && e.size == f.size && e.store[e.current].idx == 0
  {
  }

  lemma AddIsRun<B, X>(s: State<B, X>, x: X)
    requires Inv(s) && s.producer == Ready
    ensures Runs(s, AddSteps(s, x)) && Exec(s, AddSteps(s, x)) == AddResult(s, x)
    ensures Inv(AddResult(s, x)) && AddResult(s, x).producer == Ready
  {
    hide Conserved, Local, History;
    if s.store[s.current].idx < s.size {
      StepKeeps(s, Add(x));
      Then(s, Add(x), []);
    } else {
      AddAfterFlush(s, x);
    }
  }

  lemma AddAfterFlush<B, X>(s: State<B, X>, x: X)
    requires Inv(s) && s.producer == Ready && s.store[s.current].idx == s.size
    ensures Runs(s, AddSteps(s, x)) && Exec(s, AddSteps(s, x)) == AddResult(s, x)
    ensures Inv(AddResult(s, x)) && AddResult(s, x).producer == Ready
  {
    hide Conserved, Local, History, FlushSteps, FlushResult;
    FlushReady(s);
    FlushIsRun(s, true);
    ResetThenAdd(FlushResult(s, true), x);
    RunAppend(s, FlushSteps(s, true), [ResetAfterFlush, Add(x)]);
  }

  lemma ResetThenAdd<B, X>(f: State<B, X>, x: X)
    requires Inv(f) && f.producer.ResetCurrent? && Shaped(Emptied(f)) && Emptied(f).store[f.current].idx < f.size
    ensures Runs(f, [ResetAfterFlush, Add(x)])
    ensures Exec(f, [ResetAfterFlush, Add(x)]) == Stored(Emptied(f), x)
    ensures Inv(Stored(Emptied(f), x))
  {
    hide Conserved, Local, History;
    StepKeeps(f, ResetAfterFlush);
    var g := Apply(f, ResetAfterFlush);
    assert g == Emptied(f);
    StepKeeps(g, Add(x));
    assert Apply(g, Add(x)) == Stored(g, x);
    Then(g, Add(x), []);
    assert [ResetAfterFlush, Add(x)] == [ResetAfterFlush] + ([Add(x)] + []);
    Then(f, ResetAfterFlush, [Add(x)] + []);
  }

  /** What add_elem does to the closed blocks and to the current one. */
  lemma AddCloses<B, X>(s: State<B, X>, x: X)
    requires Inv(s) && s.producer == Ready
    ensures var r := AddResult(s, x);
            var v := Valid(s.store[s.current]);
            && Shaped(r) && r.producer == Ready && r.accepted == s.accepted + [x]
            && if s.store[s.current].idx < s.size then r.closed == s.closed && Pending(r) == v + [x]
               else r.closed == s.closed + [Chunk(v, HasNext(s))] && Pending(r) == [x]
  {
    AddIsRun(s, x);
    if s.store[s.current].idx < s.size {
      StoreAppends(s, x);
    } else {
      FlushReady(s);
      FlushIsRun(s, true);
      StoreAppends(Emptied(FlushResult(s, true)), x);
      FlushCloses(s);
    }
    hide Conserved, Local, History, Runs, Exec;
  }

  lemma StoreAppends<B, X>(s: State<B, X>, x: X)
    requires Shaped(s) && s.producer == Ready && s.store[s.current].idx < s.size
    ensures var r := Stored(s, x);
            Shaped(r) && r.producer == Ready && r.closed == s.closed && r.accepted == s.accepted + [x]
            && Pending(r) == Valid(s.store[s.current]) + [x]
  {
  }

  lemma FlushCloses<B, X>(s: State<B, X>)
    requires Inv(s) && s.producer == Ready && s.store[s.current].idx == s.size
    ensures var f := FlushResult(s, true);
            && Shaped(f) && f.producer == ResetCurrent(HasNext(s)) && f.accepted == s.accepted
            && Emptied(f).closed == s.closed + [Chunk(Valid(s.store[s.current]), HasNext(s))]
            && Valid(Emptied(f).store[f.current]) == []
  {
    FlushIsRun(s, true);
    hide Conserved, Local, History, FlushSteps, Runs, Exec;
  }

  /** No block is left to go on with, in either mode. */
  predicate OutOfBlocks<B(==), X>(s: State<B, X>) {
    s.pool == [] && s.writeQueue == []
  }

  /** add_elem reports success in any case. It loses samples if and only if the current block is full
      and there is no other: then, in producer-consumer mode, exactly those of the current block, and
      in circular mode exactly those of the oldest block that is queued. */
  lemma AddLosesIff<B, X>(s: State<B, X>, x: X)
    requires Inv(s) && s.producer == Ready
    ensures var r := AddResult(s, x);
            var lost := s.store[s.current].idx == s.size && OutOfBlocks(s);
            && Shaped(r)
            && r.accepted == s.accepted + [x]
            && (Stream(r) + Pending(r) == Stream(s) + Pending(s) + [x] <==> !lost)
            && (lost && !s.circular ==> Stream(r) + Pending(r) == Stream(s) + [x])
            && (lost && s.circular ==>
                  && s.readQueue != []
                  && 0 < s.store[s.readQueue[0]].idx
                  && Valid(s.store[s.readQueue[0]]) + (Stream(r) + Pending(r)) == Stream(s) + Pending(s) + [x])
  {
    hide Inv, AddResult, Flow, Pending, Stream, Shaped, Valid;
    AddFlow(s, x);
    AddEvicts(s, x);
    var r := AddResult(s, x);
    AddIsRun(s, x);
    InvShaped(s);
    InvShaped(r);
    PartsOfFlow(s);
    PartsOfFlow(r);
    FullPending(s);
    if s.store[s.current].idx == s.size && OutOfBlocks(s) {
      if s.circular {
        OldestThere(s);
        ValidLength(s.store[s.readQueue[0]]);
        OldestLost(s.evicted, Valid(s.store[s.readQueue[0]]), Stream(s), Pending(s), x, r.evicted, Stream(r), Pending(r));
      } else {
        CurrentLost(s.evicted, Stream(s), Pending(s), x, r.evicted, Stream(r), Pending(r));
      }
    } else {
      NoneLost(s.evicted, Stream(s), Pending(s), x, r.evicted, Stream(r), Pending(r));
    }
  }

  lemma ValidLength<X>(b: Block<X>)
    requires b.idx <= |b.buf|
    ensures |Valid(b)| == b.idx
  {
  }

  lemma InvShaped<B, X>(s: State<B, X>)
    requires Inv(s)
    ensures Shaped(s)
  {
  }

  lemma NoneLost<X>(e: seq<X>, a: seq<X>, p: seq<X>, x: X, e': seq<X>, a': seq<X>, p': seq<X>)
    requires e' == e && (e' + a') + p' == (e + a) + p + [x]
    ensures a' + p' == a + p + [x]
  {
    Regroup(e', a', p');
    Regroup(e, a, p);
    Regroup(e, a + p, [x]);
    Cancel(e, a' + p', a + p + [x]);
  }

  lemma CurrentLost<X>(e: seq<X>, a: seq<X>, p: seq<X>, x: X, e': seq<X>, a': seq<X>, p': seq<X>)
    requires e' == e && (e' + a') + p' == (e + a) + [x] && 1 <= |p|
    ensures a' + p' == a + [x] && a' + p' != a + p + [x]
  {
    Regroup(e', a', p');
    Regroup(e, a, [x]);
    Cancel(e, a' + p', a + [x]);
    assert |a + p + [x]| > |a + [x]|;
  }

  lemma OldestLost<X>(e: seq<X>, v: seq<X>, a: seq<X>, p: seq<X>, x: X, e': seq<X>, a': seq<X>, p': seq<X>)
    requires e' == e + v && (e' + a') + p' == (e + a) + p + [x] && 1 <= |v|
    ensures v + (a' + p') == a + p + [x] && a' + p' != a + p + [x]
  {
    Regroup(e', a', p');
    Regroup(e, v, a' + p');
    Regroup(e, a, p);
    Regroup(e, a + p, [x]);
    Cancel(e, v + (a' + p'), a + p + [x]);
    assert |v + (a' + p')| > |a' + p'|;
  }

  lemma Regroup<X>(a: seq<X>, b: seq<X>, c: seq<X>)
    ensures (a + b) + c == a + (b + c)
  {
  }

  lemma Cancel<X>(e: seq<X>, a: seq<X>, b: seq<X>)
    requires e + a == e + b
    ensures a == b
  {
    assert a == (e + a)[|e|..] && b == (e + b)[|e|..];
  }

  lemma OldestThere<B, X>(s: State<B, X>)
    requires Inv(s) && s.producer == Ready && OutOfBlocks(s) && s.circular
    ensures s.readQueue != [] && s.readQueue[0] in s.store && 0 < s.store[s.readQueue[0]].idx <= |s.store[s.readQueue[0]].buf|
  {
    AllQueued(s);
    assert s.readQueue[0] in s.readQueue;
  }

  lemma PartsOfFlow<B, X>(s: State<B, X>)
    requires Shaped(s)
    ensures Flow(s) == s.evicted + Stream(s)
  {
  }

  lemma FullPending<B, X>(s: State<B, X>)
    requires Inv(s) && s.producer == Ready
    ensures |Pending(s)| == s.store[s.current].idx && 1 <= s.size
  {
  }

  /** What add_elem overwrites. */
  lemma AddEvicts<B, X>(s: State<B, X>, x: X)
    requires Inv(s) && s.producer == Ready
    ensures var lost := s.store[s.current].idx == s.size && OutOfBlocks(s) && s.circular;
            && (lost ==> s.readQueue != [] && s.readQueue[0] in s.store && s.store[s.readQueue[0]].idx <= |s.store[s.readQueue[0]].buf|)
            && AddResult(s, x).evicted == s.evicted + if lost then Valid(s.store[s.readQueue[0]]) else []
  {
    hide Conserved, Local, History;
    if s.store[s.current].idx == s.size {
      FlushReady(s);
      if OutOfBlocks(s) && s.circular {
        OldestThere(s);
      }
    }
  }

  /** Together with what was overwritten, add_elem loses samples only in producer-consumer mode. */
  lemma AddFlow<B, X>(s: State<B, X>, x: X)
    requires Inv(s) && s.producer == Ready
    ensures var r := AddResult(s, x);
            && Shaped(r)
            && r.accepted == s.accepted + [x]
            && Flow(r) + Pending(r) ==
                 if s.store[s.current].idx == s.size && !HasNext(s) then Flow(s) + [x] else Flow(s) + Pending(s) + [x]
  {
    var r := AddResult(s, x);
    var v := Valid(s.store[s.current]);
    AddIsRun(s, x);
    AddCloses(s, x);
    FlowIsKept(s);
    FlowIsKept(r);
    KeptChunk(s.closed, Chunk(v, HasNext(s)));
    hide Inv, AddResult, HasNext, Flow, Pending, Kept, Runs, Exec, Shaped, Valid, AddSteps;
  }

  lemma FlowIsKept<B, X>(s: State<B, X>)
    requires Inv(s)
    ensures Shaped(s) && Flow(s) == Kept(s.closed)
    ensures s.producer == Ready ==> Pending(s) == Valid(s.store[s.current])
  {
  }

  lemma KeptChunk<X>(cs: seq<Chunk<X>>, c: Chunk<X>)
    ensures Kept(cs + [c]) == Kept(cs) + if c.kept then c.samples else []
  {
    assert (cs + [c])[..|cs|] == cs;
  }

  // ----- A producer without a reader -----

  /** How many samples fit before a block must be given up. */
  function Room<B, X>(s: State<B, X>): nat
    requires Shaped(s)
  {
    PoolRoom(|s.pool|, s.size);
    |s.pool| * s.size + (s.size - s.store[s.current].idx)
  }

  lemma PoolRoom(n: nat, size: nat)
    ensures 0 <= n * size && (n > 0 ==> n * size == (n - 1) * size + size)
    ensures n * size == 0 ==> n == 0 || size == 0
  {
  }

  /** add_elem for one sample after the other, while nobody reads. */
  ghost function ManySteps<B, X>(s: State<B, X>, xs: seq<X>): seq<Step<X>>
    requires Inv(s) && s.producer == Ready
    decreases |xs|
  {
    if xs == [] then [] else
      AddIsRun(s, xs[0]);
      AddSteps(s, xs[0]) + ManySteps(AddResult(s, xs[0]), xs[1..])
  }

  ghost function ManyResult<B, X>(s: State<B, X>, xs: seq<X>): State<B, X>
    requires Inv(s) && s.producer == Ready
    decreases |xs|
  {
    if xs == [] then s else
      AddIsRun(s, xs[0]);
      ManyResult(AddResult(s, xs[0]), xs[1..])
  }

  lemma {:induction false} ManyIsRun<B, X>(s: State<B, X>, xs: seq<X>)
    requires Inv(s) && s.producer == Ready
    ensures Runs(s, ManySteps(s, xs)) && Exec(s, ManySteps(s, xs)) == ManyResult(s, xs)
    ensures Inv(ManyResult(s, xs)) && ManyResult(s, xs).producer == Ready
    decreases |xs|
  {
    hide Inv, AddSteps, AddResult;
    if xs != [] {
      AddIsRun(s, xs[0]);
      ManyIsRun(AddResult(s, xs[0]), xs[1..]);
      InvShaped(s);
      RunAppend(s, AddSteps(s, xs[0]), ManySteps(AddResult(s, xs[0]), xs[1..]));
    }
  }

  /** While there is room, one more sample takes one place. */
  lemma AddTakesRoom<B, X>(s: State<B, X>, x: X)
    requires Inv(s) && s.producer == Ready && s.writeQueue == [] && 0 < Room(s)
    ensures var r := AddResult(s, x);
            && Inv(r) && r.producer == Ready && r.writeQueue == [] && Room(r) + 1 == Room(s)
            && r.circular == s.circular
  {
    AddIsRun(s, x);
    if s.store[s.current].idx < s.size {
      hide Conserved, Local, History;
    } else {
      NextFromPool(s, x);
    }
  }

  lemma NextFromPool<B, X>(s: State<B, X>, x: X)
    requires Inv(s) && s.producer == Ready && s.writeQueue == [] && 0 < Room(s) && s.store[s.current].idx == s.size
    ensures var r := AddResult(s, x);
            && Shaped(r) && r.writeQueue == [] && Room(r) + 1 == Room(s) && r.circular == s.circular
  {
    hide Conserved, Local, History;
    AddIsRun(s, x);
    PoolRoom(|s.pool|, s.size);
    FlushReady(s);
    var f := FlushResult(s, true);
    assert s.pool + s.writeQueue == s.pool;
    assert s.pool[|s.pool| - 1] in s.pool;
    assert f.pool == s.pool[..|s.pool| - 1] && f.writeQueue == [] && f.size == s.size && f.circular == s.circular;
  }

  lemma {:induction false} ManyTakeRoom<B, X>(s: State<B, X>, xs: seq<X>)
    requires Inv(s) && s.producer == Ready && s.writeQueue == [] && |xs| <= Room(s)
    ensures var r := ManyResult(s, xs);
            && Inv(r) && r.producer == Ready && r.writeQueue == [] && Room(r) + |xs| == Room(s)
            && r.circular == s.circular
    decreases |xs|
  {
    hide Inv, AddResult, Room;
    if xs != [] {
      AddTakesRoom(s, xs[0]);
      ManyTakeRoom(AddResult(s, xs[0]), xs[1..]);
    }
  }

  lemma NoRoom<B, X>(s: State<B, X>)
    requires Inv(s) && s.producer == Ready && s.writeQueue == [] && Room(s) == 0
    ensures OutOfBlocks(s) && s.store[s.current].idx == s.size
  {
    hide Conserved, Local, History;
    PoolRoom(|s.pool|, s.size);
  }

  // ----- When it starves -----

  lemma {:induction false} StarvedAppend<B, X>(s: State<B, X>, steps: seq<Step<X>>, more: seq<Step<X>>)
    requires Runs(s, steps) && Runs(Exec(s, steps), more) && Runs(s, steps + more)
    ensures EverStarved(s, steps + more) <==> EverStarved(s, steps) || EverStarved(Exec(s, steps), more)
    decreases |steps|
  {
    hide Apply, Enabled, Shaped, Starved;
    if steps == [] {
      assert steps + more == more;
    } else {
      assert (steps + more)[1..] == steps[1..] + more;
      StarvedAppend(Apply(s, steps[0]), steps[1..], more);
    }
  }

  lemma {:induction false} NeverTakes<B, X>(s: State<B, X>, steps: seq<Step<X>>)
    requires Runs(s, steps) && forall step | step in steps :: !step.TakeBlock?
    ensures !EverStarved(s, steps)
    decreases |steps|
  {
    hide Apply, Enabled, Shaped;
    if steps != [] {
      assert steps[0] in steps;
      NeverTakes(Apply(s, steps[0]), steps[1..]);
    }
  }

  /** An add_elem that finds the write queue empty is starved exactly when there is no room. */
  lemma AddStarvedIff<B, X>(s: State<B, X>, x: X)
    requires Inv(s) && s.producer == Ready && s.writeQueue == []
    ensures Runs(s, AddSteps(s, x)) && (EverStarved(s, AddSteps(s, x)) <==> Room(s) == 0)
  {
    hide Conserved, Local, History, Apply, FlushSteps;
    AddIsRun(s, x);
    PoolRoom(|s.pool|, s.size);
    hide Runs, EverStarved, AddResult;
    if s.store[s.current].idx < s.size {
      NeverTakes(s, AddSteps(s, x));
    } else {
      FullStarvedIff(s, x);
    }
  }

  lemma FullStarvedIff<B, X>(s: State<B, X>, x: X)
    requires Shaped(s) && s.producer == Ready && s.writeQueue == [] && s.store[s.current].idx == s.size
    requires Runs(s, AddSteps(s, x))
    ensures EverStarved(s, AddSteps(s, x)) <==> s.pool == []
  {
    var rest := (if HasNext(s) then [PushCurrent] else []) + [ResetAfterFlush, Add(x)];
    FullSteps(s, x);
    hide Apply, Enabled, Shaped, AddSteps;
    RunSplit(s, BeginFlush(true), [TakeBlock] + rest);
    BegunFlush(s);
    var s1 := Apply(s, BeginFlush(true));
    RunSplit(s1, TakeBlock, rest);
    NeverTakes(Apply(s1, TakeBlock), rest);
  }

  lemma FullSteps<B, X>(s: State<B, X>, x: X)
    requires Shaped(s) && s.writeQueue == [] && s.store[s.current].idx == s.size
    ensures AddSteps(s, x)
            == [BeginFlush(true)] + ([TakeBlock] + ((if HasNext(s) then [PushCurrent] else []) + [ResetAfterFlush, Add(x)]))
  {
  }

  lemma BegunFlush<B, X>(s: State<B, X>)
    requires Shaped(s) && Enabled(s, BeginFlush(true))
    ensures Apply(s, BeginFlush(true)) == s.(producer := Collect(true))
  {
  }

  lemma RunSplit<B, X>(s: State<B, X>, step: Step<X>, steps: seq<Step<X>>)
    requires Runs(s, [step] + steps)
    ensures Shaped(s) && Enabled(s, step) && Runs(Apply(s, step), steps)
    ensures EverStarved(s, [step] + steps) <==> Starved(s, step) || EverStarved(Apply(s, step), steps)
  {
    hide Apply, Enabled, Shaped, Starved;
    assert ([step] + steps)[1..] == steps;
  }

  /** While nobody reads, samples are lost as soon as there are more of them than there is room, and
      not before; in either mode. */
  lemma {:induction false} UnreadLosesIff<B, X>(s: State<B, X>, xs: seq<X>)
    requires Inv(s) && s.producer == Ready && s.writeQueue == []
    ensures Runs(s, ManySteps(s, xs)) && (EverStarved(s, ManySteps(s, xs)) <==> Room(s) < |xs|)
    decreases |xs|
  {
    hide Inv, AddSteps, AddResult, Room;
    ManyIsRun(s, xs);
    InvShaped(s);
    if xs != [] {
      var r := AddResult(s, xs[0]);
      AddStarvedIff(s, xs[0]);
      AddIsRun(s, xs[0]);
      ManyIsRun(r, xs[1..]);
      StarvedAppend(s, AddSteps(s, xs[0]), ManySteps(r, xs[1..]));
      if 0 < Room(s) {
        AddTakesRoom(s, xs[0]);
        UnreadLosesIff(r, xs[1..]);
      }
    }
  }

  /** At the beginning there is room for all the blocks, so every longer run without a reader is one
      that loses samples: in producer-consumer mode the last block, in circular mode the first. */
  lemma UnreadFromStart<B, X>(s: State<B, X>, xs: seq<X>)
    requires Init(s)
    ensures Inv(s) && Runs(s, ManySteps(s, xs))
    ensures EverStarved(s, ManySteps(s, xs)) <==> NUM_BLOCKS * s.size < |xs|
    ensures NUM_BLOCKS * s.size + 1 == |xs| ==>
      var r := Exec(s, ManySteps(s, xs));
      Shaped(r) && r.accepted != Stream(r) + Pending(r) && (s.circular <==> r.evicted != [])
  {
    InitInv(s);
    InitRoom(s);
    UnreadLosesIff(s, xs);
    ManyIsRun(s, xs);
    if NUM_BLOCKS * s.size + 1 == |xs| {
      LosslessIffNeverStarved(s, ManySteps(s, xs));
      if s.circular {
        CircularOverwrites(s, xs);
      } else {
        NeverEvicts(s, ManySteps(s, xs));
      }
    }
  }

  lemma InitRoom<B, X>(s: State<B, X>)
    requires Init(s)
    ensures Room(s) == NUM_BLOCKS * s.size
  {
    var all := multiset(s.pool) + multiset(s.readQueue) + multiset(s.writeQueue) + multiset{s.current}
               + multiset(InProducer(s.producer)) + multiset(InConsumer(s.consumer));
    assert |all| == |multiset(s.store.Keys)| == NUM_BLOCKS;
    assert |s.pool| == NUM_BLOCKS - 1;
  }

  lemma CircularOverwrites<B, X>(s: State<B, X>, xs: seq<X>)
    requires Inv(s) && s.producer == Ready && s.writeQueue == [] && s.circular && |xs| == Room(s) + 1
    ensures ManyResult(s, xs).evicted != []
  {
    hide Inv, AddResult, Room;
    var n := |xs| - 1;
    ManySplit(s, xs[..n], xs[n]);
    assert xs == xs[..n] + [xs[n]];
    ManyTakeRoom(s, xs[..n]);
    var r := ManyResult(s, xs[..n]);
    NoRoom(r);
    AddEvicts(r, xs[n]);
    OldestThere(r);
    ValidLength(r.store[r.readQueue[0]]);
  }

  lemma {:induction false} ManySplit<B, X>(s: State<B, X>, xs: seq<X>, x: X)
    requires Inv(s) && s.producer == Ready
    ensures Inv(ManyResult(s, xs)) && ManyResult(s, xs).producer == Ready
    ensures ManyResult(s, xs + [x]) == AddResult(ManyResult(s, xs), x)
    decreases |xs|
  {
    hide Inv, AddResult;
    ManyIsRun(s, xs);
    if xs == [] {
      assert xs + [x] == [x];
    } else {
      AddIsRun(s, xs[0]);
      assert (xs + [x])[1..] == xs[1..] + [x];
      ManySplit(AddResult(s, xs[0]), xs[1..], x);
    }
  }

  // ----- read_block -----

  ghost function ReadSteps<B, X>(s: State<B, X>): seq<Step<X>> {
    if s.readQueue == [] then []
    else [Pop] + (Repeat(CopyColumn, s.size) + ([ReadValid] + ([ResetBlock] + [GiveBack])))
  }

  function ReadResult<B, X>(s: State<B, X>): State<B, X>
    requires Shaped(s)
  {
    if s.readQueue == [] then s else
      var b := s.readQueue[0];
      s.(readQueue := s.readQueue[1..],
         store := s.store[b := s.store[b].(idx := 0)],
         writeQueue := s.writeQueue + [b],
         delivered := s.delivered + Valid(s.store[b]))
  }

  lemma {:induction false} CopyAll<B, X>(s: State<B, X>, n: nat)
    requires Shaped(s) && s.consumer.Copy? && |s.consumer.data| + n == s.size
    requires s.consumer.data == s.store[s.consumer.held].buf[..|s.consumer.data|]
    ensures Runs(s, Repeat(CopyColumn, n))
    ensures Exec(s, Repeat(CopyColumn, n)) == s.(consumer := Copy(s.consumer.held, s.store[s.consumer.held].buf))
    decreases n
  {
    var b := s.consumer.held;
    if n == 0 {
      assert s.store[b].buf[..s.size] == s.store[b].buf;
    } else {
      var s' := Apply(s, CopyColumn);
      CopyAll(s', n - 1);
      Then(s, CopyColumn, Repeat(CopyColumn, n - 1));
    }
  }

  lemma ReadIsRun<B, X>(s: State<B, X>)
    requires Inv(s) && s.consumer == Idle && !s.circular
    ensures Runs(s, ReadSteps(s)) && Exec(s, ReadSteps(s)) == ReadResult(s)
    ensures Inv(ReadResult(s))
    ensures s.readQueue != [] ==> 0 < |Valid(s.store[s.readQueue[0]])|
  {
    if s.readQueue != [] {
      assert s.readQueue[0] in s.readQueue;
      var s1 := Apply(s, Pop);
      StepKeeps(s, Pop);
      CopyAll(s1, s.size);
      var copy := Repeat<X>(CopyColumn, s.size);
      RunKeeps(s1, copy);
      var s2 := Exec(s1, copy);
      FinishRead(s2);
      RunAppend(s1, copy, [ReadValid] + ([ResetBlock] + [GiveBack]));
      Then(s, Pop, copy + ([ReadValid] + ([ResetBlock] + [GiveBack])));
      RunKeeps(s, ReadSteps(s));
    }
  }

  lemma FinishRead<B, X>(s: State<B, X>)
    requires Inv(s) && s.consumer.Copy? && |s.consumer.data| == s.size
    ensures Runs(s, [ReadValid] + ([ResetBlock] + [GiveBack]))
    ensures var b := s.consumer.held;
            Exec(s, [ReadValid] + ([ResetBlock] + [GiveBack])) ==
            s.(store := s.store[b := s.store[b].(idx := 0)],
               writeQueue := s.writeQueue + [b],
               consumer := Idle,
               delivered := s.delivered + Valid(s.store[b]))
  {
    CopiedIsValid(s);
    StepKeeps(s, ReadValid);
    ResetAndReturn(Apply(s, ReadValid));
    hide Conserved, Local, History;
    Then(s, ReadValid, [ResetBlock] + [GiveBack]);
  }

  lemma ResetAndReturn<B, X>(s: State<B, X>)
    requires Inv(s) && s.consumer.Reset? && s.consumer.valid <= |s.consumer.data|
    ensures Runs(s, [ResetBlock] + [GiveBack])
    ensures var Reset(b, data, n) := s.consumer;
            Exec(s, [ResetBlock] + [GiveBack]) ==
            s.(store := s.store[b := s.store[b].(idx := 0)],
               writeQueue := s.writeQueue + [b],
               consumer := Idle,
               delivered := s.delivered + data[..n])
  {
    StepKeeps(s, ResetBlock);
    var s2 := Apply(s, ResetBlock);
    RoomToReturn(s2);
    hide Conserved, Local, History;
    Then(s2, GiveBack, []);
    Then(s, ResetBlock, [GiveBack]);
  }

  lemma CopiedIsValid<B, X>(s: State<B, X>)
    requires Inv(s) && s.consumer.Copy? && |s.consumer.data| == s.size
    ensures var b := s.store[s.consumer.held]; s.consumer.data[..b.idx] == Valid(b)
  {
  }

  // ----- Reading until the queue is empty -----

  lemma HeadDistinct<B, X>(s: State<B, X>)
    requires Shaped(s) && Conserved(s) && s.readQueue != []
    ensures s.readQueue[0] !in s.readQueue[1..] && s.readQueue[0] != s.current
  {
    Once(s, s.readQueue[0]);
    assert s.readQueue == [s.readQueue[0]] + s.readQueue[1..];
    assert multiset(s.readQueue) == multiset{s.readQueue[0]} + multiset(s.readQueue[1..]);
  }

  ghost function Queued<B, X>(s: State<B, X>): seq<X>
    requires Inv(s)
  {
    Samples(s.store, s.readQueue)
  }

  /** read_block again and again, until it returns false. */
  function DrainResult<B, X>(s: State<B, X>): State<B, X>
    requires Inv(s) && s.consumer == Idle && !s.circular
    decreases |s.readQueue|
  {
    if s.readQueue == [] then s else
      ReadIsRun(s);
      DrainResult(ReadResult(s))
  }

  lemma ReadSamples<B, X>(s: State<B, X>)
    requires Inv(s) && s.consumer == Idle && !s.circular && s.readQueue != []
    ensures var r := ReadResult(s);
            && Inv(r)
            && Queued(s) == Valid(s.store[s.readQueue[0]]) + Queued(r)
            && |r.readQueue| < |s.readQueue| && r.consumer == Idle && !r.circular && r.producer == s.producer && r.current == s.current
            && r.accepted == s.accepted && r.evicted == s.evicted && r.delivered == s.delivered + Valid(s.store[s.readQueue[0]])
            && r.store[r.current] == s.store[s.current]
  {
    ReadIsRun(s);
    HeadDistinct(s);
    var r := ReadResult(s);
    SamplesFrame(s.store, r.store, r.readQueue);
  }

  /** All that was queued is read, in order, and the current block stays. */
  lemma {:induction false} DrainReads<B, X>(s: State<B, X>)
    requires Inv(s) && s.consumer == Idle && !s.circular
    ensures var r := DrainResult(s);
            && Inv(r) && r.readQueue == [] && r.consumer == Idle && !r.circular && r.producer == s.producer
            && r.delivered == s.delivered + Queued(s)
            && r.current == s.current && r.store[r.current] == s.store[s.current]
            && r.accepted == s.accepted && r.evicted == s.evicted
    decreases |s.readQueue|
  {
    hide Conserved, Local, History, ReadResult, Queued;
    if s.readQueue == [] {
      NothingQueued(s);
    } else {
      ReadSamples(s);
      DrainReads(ReadResult(s));
    }
  }

  lemma NothingQueued<B, X>(s: State<B, X>)
    requires Inv(s) && s.readQueue == []
    ensures Queued(s) == []
  {
  }
}
