/** The logger over all its variables: flushing to the backend, and the destructor that writes out
    whatever is still buffered. Its variables are values of the block-exchange machine, as the
    map of the logger holds its buffers by value. */
module MatLogger {
  import opened BlockExchange
  import opened Sequential

  type Sample = seq<real>
  type Buffer = State<nat, Sample>

  /** One call of the backend: a block of samples as rows x cols x slices, or a container. */
  datatype Write =
    | Samples(name: string, samples: seq<Sample>, rows: nat, cols: nat, slices: nat)
    | Container(name: string, content: int)

  datatype Variable = Variable(rows: nat, cols: nat, buffer: Buffer)

  /** What the backend was given under a name. */
  ghost function WrittenTo(ws: seq<Write>, name: string): seq<Sample> {
    if ws == [] then [] else
      var w := ws[|ws| - 1];
      WrittenTo(ws[..|ws| - 1], name) + if w.Samples? && w.name == name then w.samples else []
  }

  lemma WrittenToAppend(ws: seq<Write>, w: Write, name: string)
    ensures WrittenTo(ws + [w], name) ==
            WrittenTo(ws, name) + if w.Samples? && w.name == name then w.samples else []
  {
    assert (ws + [w])[..|ws|] == ws;
  }

  /** What the backend is called with for samples of `rows` x `cols`: those of a vector are columns side
      by side, those of a matrix are slices. */
  predicate CallShape(w: Write, rows: nat, cols: nat)
    requires w.Samples?
  {
    && w.rows == rows
    && if cols == 1 then w.cols == |w.samples| && w.slices == 1
       else w.cols == cols && w.slices == |w.samples|
  }

  /** Every call for the variable has this shape. */
  ghost predicate CallsShaped(ws: seq<Write>, name: string, rows: nat, cols: nat) {
    forall k | 0 <= k < |ws| :: ws[k].Samples? && ws[k].name == name ==> CallShape(ws[k], rows, cols)
  }

  /** The bytes of the samples that the backend was given. */
  function SampleBytes(ws: seq<Write>): nat {
    if ws == [] then 0 else
      var w := ws[|ws| - 1];
      SampleBytes(ws[..|ws| - 1]) + if w.Samples? then w.rows * w.cols * w.slices * 8 else 0
  }

  lemma SampleBytesAppend(ws: seq<Write>, w: Write)
    ensures SampleBytes(ws + [w]) == SampleBytes(ws) + if w.Samples? then w.rows * w.cols * w.slices * 8 else 0
  {
    assert (ws + [w])[..|ws|] == ws;
  }

  lemma ShapedAppend(ws: seq<Write>, w: Write, name: string, rows: nat, cols: nat)
    ensures CallsShaped(ws + [w], name, rows, cols)
            <==> CallsShaped(ws, name, rows, cols) && (w.Samples? && w.name == name ==> CallShape(w, rows, cols))
  {
    assert forall k | 0 <= k < |ws| :: (ws + [w])[k] == ws[k];
    assert (ws + [w])[|ws|] == w;
  }

  /** A call takes as many numbers as its samples have. */
  lemma NumbersInCall(w: Write, rows: nat, cols: nat)
    requires w.Samples? && CallShape(w, rows, cols)
    ensures w.rows * w.cols * w.slices == rows * cols * |w.samples|
  {
  }

  /** A buffer between calls. */
  ghost predicate AtRest(s: Buffer) {
    Inv(s) && s.producer == Ready && s.consumer == Idle
  }

  /** Samples read so far, then those still queued, then those of the current block. */
  ghost function Total(s: Buffer): seq<Sample>
    requires Shaped(s)
  {
    s.delivered + BlockExchange.Samples(s.store, s.readQueue) + Valid(s.store[s.current])
  }

  // ----- One variable -----

  lemma ReadTotal(s: Buffer)
    requires AtRest(s) && !s.circular && s.readQueue != []
    ensures AtRest(ReadResult(s)) && !ReadResult(s).circular
    ensures Total(ReadResult(s)) == Total(s)
    ensures |ReadResult(s).readQueue| == |s.readQueue| - 1
    ensures 0 < |Valid(s.store[s.readQueue[0]])|
    ensures ReadResult(s).accepted == s.accepted
  {
    ReadIsRun(s);
    var s' := ReadResult(s);
    assert s.readQueue[0] in s.readQueue;
    HeadDistinct(s);
    SamplesFrame(s.store, s'.store, s'.readQueue);
  }

  function Flushed(s: Buffer): Buffer
    requires AtRest(s) && !s.circular
  {
    if s.store[s.current].idx == 0 then s else FlushResult(s, false)
  }

  predicate FlushSucceeds(s: Buffer)
    requires Shaped(s)
  {
    s.store[s.current].idx == 0 || HasNext(s)
  }

  lemma FlushTotal(s: Buffer)
    requires AtRest(s) && !s.circular
    ensures AtRest(Flushed(s)) && !Flushed(s).circular
    ensures Total(Flushed(s)) == Total(s)
    ensures FlushSucceeds(s) ==> Flushed(s).store[Flushed(s).current].idx == 0
    ensures Flushed(s).accepted == s.accepted
  {
    if s.store[s.current].idx != 0 {
      FlushIsRun(s, false);
      hide Inv, FlushResult, Total;
      FlushMoves(s);
    }
  }

  lemma FlushMoves(s: Buffer)
    requires AtRest(s) && !s.circular && 0 < s.store[s.current].idx
    requires Inv(FlushResult(s, false))
    ensures var f := FlushResult(s, false);
            && !f.circular && f.consumer == Idle && f.accepted == s.accepted
            && Total(f) == Total(s)
            && (HasNext(s) ==> f.store[f.current].idx == 0)
  {
    hide FlushResult, Conserved, Local, History, HasNext;
    FlushFields(s);
    if HasNext(s) {
      FlushTakes(s);
      QueuedSamples(s, FlushResult(s, false));
    }
  }

  lemma QueuedSamples(s: Buffer, f: Buffer)
    requires Shaped(s) && Shaped(f)
    requires f.readQueue == s.readQueue + [s.current] && f.delivered == s.delivered && f.store[f.current].idx == 0
    requires forall b | b in s.readQueue + [s.current] :: b in s.store && b in f.store && f.store[b] == s.store[b]
    ensures Total(f) == Total(s)
  {
    SamplesAppend(s.store, s.readQueue, s.current);
    SamplesFrame(s.store, f.store, f.readQueue);
    assert Valid(f.store[f.current]) == [];
  }

  lemma FlushFields(s: Buffer)
    requires AtRest(s) && !s.circular && 0 < s.store[s.current].idx
    ensures var f := FlushResult(s, false);
            && !f.circular && f.consumer == Idle && f.accepted == s.accepted
            && (!HasNext(s) ==> f.store == s.store && f.readQueue == s.readQueue && f.current == s.current && f.delivered == s.delivered)
  {
    hide Conserved, Local, History;
  }

  lemma FlushTakes(s: Buffer)
    requires AtRest(s) && !s.circular && 0 < s.store[s.current].idx && HasNext(s)
    ensures var f := FlushResult(s, false);
            && f.readQueue == s.readQueue + [s.current] && f.delivered == s.delivered
            && f.current in f.store && f.store[f.current].idx == 0
            && forall b | b in s.readQueue + [s.current] :: b in s.store && b in f.store && f.store[b] == s.store[b]
  {
    hide History, Local;
    var c := Collected(s.(producer := Collect(false)));
    assert c.pool != [];
    var b := c.pool[|c.pool| - 1];
    assert b in c.pool;
    Once(s, b);
    Once(s, s.current);
  }

  /** A buffer whose queue is empty has a free block. */
  lemma DrainedSucceeds(s: Buffer)
    requires AtRest(s) && s.readQueue == []
    ensures FlushSucceeds(s)
  {
    var all := multiset(s.pool) + multiset(s.readQueue) + multiset(s.writeQueue) + multiset{s.current}
               + multiset(InProducer(s.producer)) + multiset(InConsumer(s.consumer));
    assert |all| == |multiset(s.store.Keys)| == NUM_BLOCKS;
  }

  lemma ReadKeepsCurrent(s: Buffer)
    requires AtRest(s) && s.readQueue != []
    ensures var r := ReadResult(s); r.current == s.current && r.store[r.current] == s.store[s.current]
  {
    HeadDistinct(s);
  }

  lemma ReadDelivers(s: Buffer)
    requires AtRest(s) && s.readQueue != []
    ensures Shaped(s) && s.readQueue[0] in s.store && s.store[s.readQueue[0]].idx <= |s.store[s.readQueue[0]].buf|
    ensures ReadResult(s).delivered == s.delivered + Valid(s.store[s.readQueue[0]])
  {
    assert s.readQueue[0] in s.readQueue;
  }

  lemma Bytes(rows: nat, cols: nat, valid: nat)
    requires 1 <= rows && 1 <= cols && 1 <= valid
    ensures 0 < rows * cols * valid * 8
  {
    assert 0 < rows * cols;
    assert 0 < rows * cols * valid;
  }

  // ----- The logger -----

  class MatLogger2 {
    var vars: map<string, Variable>
    var matdataQueue: seq<(string, int)>
    var written: seq<Write>
    var isOpen: bool

    constructor ()
      ensures Valid() && vars == map[] && matdataQueue == [] && written == [] && isOpen
    {
      vars, matdataQueue, written, isOpen := map[], [], [], true;
    }

    /** Each buffer is at rest and what was read from it is what the backend was given for it, in calls
        of the shape of the variable. */
    ghost predicate Valid()
      reads this
    {
      forall n | n in vars :: Sound(vars[n], written, n)
    }

    static ghost predicate Sound(v: Variable, ws: seq<Write>, name: string) {
      && 1 <= v.rows && 1 <= v.cols && AtRest(v.buffer) && WrittenTo(ws, name) == v.buffer.delivered
      && CallsShaped(ws, name, v.rows, v.cols)
    }

    /** `v` with only its queue emptied into the backend. */
    static ghost predicate Drained(was: Variable, now: Variable) {
      && now == was.(buffer := now.buffer)
      && AtRest(was.buffer) && AtRest(now.buffer)
      && !now.buffer.circular
      && now.buffer.readQueue == []
      && now.buffer.current == was.buffer.current
      && now.buffer.store[now.buffer.current] == was.buffer.store[was.buffer.current]
      && now.buffer.accepted == was.buffer.accepted
      && Total(now.buffer) == Total(was.buffer)
    }

    /** flush_available_data, one variable: reads block after block and writes its valid samples. */
    method FlushVariable(name: string) returns (bytes: nat)
      requires Valid() && name in vars && !vars[name].buffer.circular
      modifies this`vars, this`written
      ensures Valid() && old(written) <= written
      ensures vars.Keys == old(vars).Keys && Drained(old(vars)[name], vars[name])
      ensures forall n | n in vars && n != name :: vars[n] == old(vars)[n]
      ensures bytes == 0 <==> old(vars)[name].buffer.readQueue == []
      ensures SampleBytes(written) == SampleBytes(old(written)) + bytes
      ensures forall k | |old(written)| <= k < |written| :: written[k].Samples? && written[k].name == name
    {
      hide AtRest, Total, ReadResult, PartlyDrained, Sound, SampleBytes, WrittenTo;
      PartlySame(vars[name], written, name);
      bytes := 0;
      while vars[name].buffer.readQueue != []
        invariant Valid() && old(written) <= written
        invariant vars.Keys == old(vars).Keys && !vars[name].buffer.circular
        invariant forall n | n in vars && n != name :: vars[n] == old(vars)[n]
        invariant PartlyDrained(old(vars)[name], vars[name])
        invariant bytes == 0 ==> vars[name] == old(vars)[name]
        invariant 0 < bytes ==> old(vars)[name].buffer.readQueue != []
        invariant SampleBytes(written) == SampleBytes(old(written)) + bytes
        invariant forall k | |old(written)| <= k < |written| :: written[k].Samples? && written[k].name == name
        decreases |vars[name].buffer.readQueue|
      {
        ghost var before := vars[name];
        var n := WriteBlock(name);
        bytes := bytes + n;
        PartlyTrans(old(vars)[name], before, vars[name]);
      }
      PartlyDone(old(vars)[name], vars[name]);
    }

    static lemma PartlySame(v: Variable, ws: seq<Write>, name: string)
      requires Sound(v, ws, name) && !v.buffer.circular
      ensures PartlyDrained(v, v)
    {
    }

    static lemma PartlyTrans(x: Variable, y: Variable, z: Variable)
      requires PartlyDrained(x, y) && PartlyDrained(y, z)
      ensures PartlyDrained(x, z)
    {
    }

    static lemma PartlyDone(x: Variable, y: Variable)
      requires PartlyDrained(x, y) && y.buffer.readQueue == []
      ensures Drained(x, y)
    {
    }

    static ghost predicate PartlyDrained(was: Variable, now: Variable) {
      && now == was.(buffer := now.buffer)
      && AtRest(was.buffer) && AtRest(now.buffer)
      && !now.buffer.circular
      && now.buffer.current == was.buffer.current
      && now.buffer.store[now.buffer.current] == was.buffer.store[was.buffer.current]
      && now.buffer.accepted == was.buffer.accepted
      && Total(now.buffer) == Total(was.buffer)
    }

    /** One block read and written. */
    method WriteBlock(name: string) returns (bytes: nat)
      requires Valid() && name in vars && !vars[name].buffer.circular && vars[name].buffer.readQueue != []
      modifies this`vars, this`written
      ensures Valid() && 0 < bytes && old(written) <= written
      ensures |written| == |old(written)| + 1 && written[|old(written)|].Samples? && written[|old(written)|].name == name
      ensures SampleBytes(written) == SampleBytes(old(written)) + bytes
      ensures vars == old(vars)[name := old(vars)[name].(buffer := ReadResult(old(vars)[name].buffer))]
      ensures PartlyDrained(old(vars)[name], vars[name]) && !vars[name].buffer.circular
      ensures |vars[name].buffer.readQueue| < |old(vars)[name].buffer.readQueue|
    {
      hide Inv, WrittenTo, ReadResult, Total, CallsShaped, SampleBytes;
      var v := vars[name];
      var s := v.buffer;
      ReadTotal(s);
      ReadKeepsCurrent(s);
      ReadDelivers(s);
      var samples := BlockExchange.Valid(s.store[s.readQueue[0]]);
      var valid := |samples|;
      var rows, cols, slices;
      if v.cols == 1 {
        rows, cols, slices := v.rows, valid, 1;
      } else {
        rows, cols, slices := v.rows, v.cols, valid;
      }
      var w := Samples(name, samples, rows, cols, slices);
      SampleBytesAppend(written, w);
      forall n | n in vars
        ensures WrittenTo(written + [w], n) == WrittenTo(written, n) + if n == name then samples else []
        ensures CallsShaped(written + [w], n, vars[n].rows, vars[n].cols)
      {
        WrittenToAppend(written, w, n);
        ShapedAppend(written, w, n, vars[n].rows, vars[n].cols);
      }
      written := written + [w];
      vars := vars[name := v.(buffer := ReadResult(s))];
      Bytes(v.rows, v.cols, valid);
      NumbersInCall(w, v.rows, v.cols);
      bytes := v.rows * v.cols * valid * 8;
    }

    /** Every buffer may be read from. */
    ghost predicate Readable()
      reads this
    {
      forall n | n in vars :: !vars[n].buffer.circular
    }

    /** flush_available_data: containers first, then all that is queued, variable by variable. */
    method FlushAvailableData() returns (bytes: nat)
      requires Valid() && Readable()
      modifies this
      ensures Valid() && Readable() && isOpen == old(isOpen)
      ensures matdataQueue == []
      ensures old(written) + Containers(old(matdataQueue)) <= written
      ensures vars.Keys == old(vars).Keys && forall n | n in vars :: Drained(old(vars)[n], vars[n])
      ensures bytes == 0 <==> forall n | n in vars :: old(vars)[n].buffer.readQueue == []
      ensures SampleBytes(written) == SampleBytes(old(written)) + bytes
    {
      hide Sound, Drained, WrittenTo, Containers, SampleBytes;
      WriteContainers();
      bytes := 0;
      var rest := vars.Keys;
      while rest != {}
        invariant Valid() && vars.Keys == old(vars).Keys && rest <= vars.Keys
        invariant isOpen == old(isOpen) && matdataQueue == []
        invariant old(written) + Containers(old(matdataQueue)) <= written
        invariant forall n | n in rest :: vars[n] == old(vars)[n]
        invariant forall n | n in vars && n !in rest :: Drained(old(vars)[n], vars[n])
        invariant bytes == 0 <==> forall n | n in vars && n !in rest :: old(vars)[n].buffer.readQueue == []
        invariant SampleBytes(written) == SampleBytes(old(written)) + bytes
      {
        var name :| name in rest;
        var n := FlushVariable(name);
        bytes := bytes + n;
        rest := rest - {name};
      }
      forall n | n in vars
        ensures !vars[n].buffer.circular
      {
        DrainedReadable(old(vars)[n], vars[n]);
      }
    }

    static lemma DrainedReadable(x: Variable, y: Variable)
      requires Drained(x, y)
      ensures !y.buffer.circular && y.buffer.readQueue == []
    {
    }

    static function Containers(q: seq<(string, int)>): seq<Write> {
      if q == [] then [] else [Container(q[0].0, q[0].1)] + Containers(q[1..])
    }

    /** The container loop of flush_available_data. */
    method WriteContainers()
      requires Valid()
      modifies this`matdataQueue, this`written
      ensures Valid()
      ensures matdataQueue == [] && written == old(written) + Containers(old(matdataQueue))
      ensures SampleBytes(written) == SampleBytes(old(written))
    {
      hide AtRest, SampleBytes, WrittenTo, CallsShaped;
      while matdataQueue != []
        invariant Valid() && SampleBytes(written) == SampleBytes(old(written))
        invariant written + Containers(matdataQueue) == old(written) + Containers(old(matdataQueue))
        decreases |matdataQueue|
      {
        var m := matdataQueue[0];
        matdataQueue := matdataQueue[1..];
        SampleBytesAppend(written, Container(m.0, m.1));
        forall n | n in vars
          ensures WrittenTo(written + [Container(m.0, m.1)], n) == WrittenTo(written, n)
          ensures CallsShaped(written + [Container(m.0, m.1)], n, vars[n].rows, vars[n].cols)
        {
          WrittenToAppend(written, Container(m.0, m.1), n);
          ShapedAppend(written, Container(m.0, m.1), n, vars[n].rows, vars[n].cols);
        }
        written := written + [Container(m.0, m.1)];
      }
    }

    /** flush_to_queue_all. True: every current block is empty now. */
    method FlushToQueueAll() returns (ret: bool)
      requires Valid() && Readable()
      modifies this`vars
      ensures Valid() && Readable()
      ensures vars.Keys == old(vars).Keys && forall n | n in vars :: Queued(old(vars)[n], vars[n])
      ensures ret <==> forall n | n in vars :: Succeeds(old(vars)[n])
    {
      hide AtRest, FlushSucceeds, Succeeds, Queued, WrittenTo, FlushResult, Flushed;
      ret := true;
      var rest := vars.Keys;
      while rest != {}
        invariant Valid() && Readable() && vars.Keys == old(vars).Keys && rest <= vars.Keys
        invariant forall n | n in rest :: vars[n] == old(vars)[n]
        invariant forall n | n in vars && n !in rest :: Queued(old(vars)[n], vars[n])
        invariant ret <==> forall n | n in vars && n !in rest ::
          Succeeds(old(vars)[n])
      {
        var name :| name in rest;
        var v := vars[name];
        QueueOne(v, written, name);
        ret := FlushSucceeds(v.buffer) && ret;
        vars := vars[name := v.(buffer := Flushed(v.buffer))];
        rest := rest - {name};
      }
    }

    static ghost predicate Succeeds(v: Variable) {
      AtRest(v.buffer) && FlushSucceeds(v.buffer)
    }

    /** `v` with its current block handed to its queue, unless there was no other block. */
    static ghost predicate Queued(was: Variable, now: Variable) {
      && now == was.(buffer := now.buffer)
      && AtRest(was.buffer) && AtRest(now.buffer)
      && now.buffer.accepted == was.buffer.accepted
      && Total(now.buffer) == Total(was.buffer)
      && (FlushSucceeds(was.buffer) ==> now.buffer.store[now.buffer.current].idx == 0)
    }

    static lemma QueueOne(v: Variable, ws: seq<Write>, name: string)
      requires Sound(v, ws, name) && !v.buffer.circular
      ensures AtRest(v.buffer) && Shaped(v.buffer) && (Succeeds(v) <==> FlushSucceeds(v.buffer))
      ensures var v' := v.(buffer := Flushed(v.buffer));
              Queued(v, v') && Sound(v', ws, name) && !v'.buffer.circular
    {
      FlushTotal(v.buffer);
      FlushDelivers(v.buffer);
    }

    /** set_buffer_mode(producer_consumer) on every variable. */
    method SetProducerConsumer()
      requires Valid()
      modifies this`vars
      ensures Valid() && Readable()
      ensures vars.Keys == old(vars).Keys
      ensures forall n | n in vars :: Moved(old(vars)[n], vars[n])
    {
      hide Sound, ReadableAgain, Moved;
      forall n | n in vars
        ensures Sound(ReadableAgain(vars[n]), written, n) && !ReadableAgain(vars[n]).buffer.circular
        ensures Moved(vars[n], ReadableAgain(vars[n]))
      {
        LeaveSound(vars[n], written, n);
        LeaveMoved(vars[n], written, n);
      }
      vars := map n | n in vars :: ReadableAgain(vars[n]);
    }

    static function ReadableAgain(v: Variable): Variable {
      v.(buffer := v.buffer.(circular := false))
    }

    static lemma LeaveSound(v: Variable, ws: seq<Write>, name: string)
      requires Sound(v, ws, name)
      ensures Sound(ReadableAgain(v), ws, name) && !ReadableAgain(v).buffer.circular
    {
      if v.buffer.circular {
        StepKeeps(v.buffer, LeaveCircular);
      } else {
        assert ReadableAgain(v) == v;
      }
    }

    /** Nothing is left in the buffer of `now`, and the backend has all that `was` held, in order and in
        calls of its shape. */
    static ghost predicate Finished(was: Variable, now: Variable, ws: seq<Write>, name: string) {
      && now == was.(buffer := now.buffer)
      && AtRest(was.buffer) && AtRest(now.buffer)
      && now.buffer.readQueue == [] && now.buffer.store[now.buffer.current].idx == 0
      && now.buffer.accepted == was.buffer.accepted
      && WrittenTo(ws, name) == Total(was.buffer)
      && CallsShaped(ws, name, was.rows, was.cols)
    }

    /** The first loop of the destructor: every current block ends up queued. */
    method QueueEverything()
      requires Valid() && Readable()
      modifies this
      ensures Valid() && Readable() && old(written) <= written
      ensures vars.Keys == old(vars).Keys && forall n | n in vars :: Moved(old(vars)[n], vars[n])
      ensures forall n | n in vars :: CurrentEmpty(vars[n])
    {
      hide Sound, Queued, Succeeds, Drained, Moved, CurrentEmpty;
      MovesNothing(vars, written);
      var ok := FlushToQueueAll();
      QueueMovesAll(old(vars), old(vars), vars);
      ghost var drained := false;
      while !ok
        invariant Valid() && Readable() && old(written) <= written
        invariant vars.Keys == old(vars).Keys && forall n | n in vars :: Moved(old(vars)[n], vars[n])
        invariant ok ==> forall n | n in vars :: CurrentEmpty(vars[n])
        invariant drained ==> ok
        decreases !drained
      {
        label before:
        var _ := FlushAvailableData();
        DrainMovesAll(old(vars), old@before(vars), vars);
        label between:
        ok := FlushToQueueAll();
        QueueMovesAll(old(vars), old@between(vars), vars);
        drained := true;
      }
    }

    /** The second loop of the destructor: every queue ends up written. */
    method WriteEverything()
      requires Valid() && Readable()
      requires forall n | n in vars :: CurrentEmpty(vars[n])
      modifies this
      ensures Valid() && old(written) <= written && matdataQueue == []
      ensures vars.Keys == old(vars).Keys && forall n | n in vars :: Moved(old(vars)[n], vars[n])
      ensures forall n | n in vars :: CurrentEmpty(vars[n]) && vars[n].buffer.readQueue == []
    {
      hide Sound, Queued, Succeeds, Drained, Moved, CurrentEmpty;
      MovesNothing(vars, written);
      var bytes := FlushAvailableData();
      DrainMovesAll(old(vars), old(vars), vars);
      while bytes > 0
        invariant Valid() && Readable() && old(written) <= written && matdataQueue == []
        invariant vars.Keys == old(vars).Keys && forall n | n in vars :: Moved(old(vars)[n], vars[n])
        invariant forall n | n in vars :: CurrentEmpty(vars[n]) && vars[n].buffer.readQueue == []
        decreases bytes
      {
        label before:
        bytes := FlushAvailableData();
        DrainMovesAll(old(vars), old@before(vars), vars);
      }
    }

    static lemma MovesNothing(vs: map<string, Variable>, ws: seq<Write>)
      requires forall n | n in vs :: Sound(vs[n], ws, n)
      ensures forall n | n in vs :: Moved(vs[n], vs[n])
    {
    }

    /** ~MatLogger2: queues and writes until nothing is left, then closes the backend. */
    method Destroy()
      requires Valid() && isOpen
      modifies this
      ensures !isOpen && matdataQueue == []
      ensures old(written) <= written
      ensures vars.Keys == old(vars).Keys
      ensures forall n | n in vars :: Finished(old(vars)[n], vars[n], written, n) && Sound(vars[n], written, n)
    {
      hide Sound, Moved, Finished, CurrentEmpty;
      SetProducerConsumer();
      label readable:
      QueueEverything();
      label queued:
      WriteEverything();
      forall n | n in vars
        ensures Finished(old(vars)[n], vars[n], written, n)
      {
        MovedThrice(old(vars)[n], old@readable(vars)[n], old@queued(vars)[n], vars[n]);
        MovedFinished(old(vars)[n], vars[n], written, n);
      }
      isOpen := false;
    }

    static lemma MovedThrice(v: Variable, w: Variable, x: Variable, y: Variable)
      requires Moved(v, w) && Moved(w, x) && Moved(x, y)
      ensures Moved(v, y)
    {
    }

    static ghost predicate CurrentEmpty(v: Variable) {
      v.buffer.current in v.buffer.store && v.buffer.store[v.buffer.current].idx == 0
    }

    /** Samples moved towards the backend only. */
    static ghost predicate Moved(was: Variable, now: Variable) {
      && now == was.(buffer := now.buffer)
      && AtRest(was.buffer) && AtRest(now.buffer)
      && now.buffer.accepted == was.buffer.accepted
      && Total(now.buffer) == Total(was.buffer)
    }

    static lemma LeaveMoved(v: Variable, ws: seq<Write>, name: string)
      requires Sound(v, ws, name)
      ensures Moved(v, ReadableAgain(v))
    {
      LeaveSound(v, ws, name);
    }

    static lemma QueueMovesAll(was: map<string, Variable>, mid: map<string, Variable>, now: map<string, Variable>)
      requires mid.Keys == was.Keys && now.Keys == mid.Keys
      requires forall n | n in was :: Moved(was[n], mid[n])
      requires forall n | n in mid :: Queued(mid[n], now[n])
      ensures forall n | n in was :: Moved(was[n], now[n])
      ensures (forall n | n in mid :: Succeeds(mid[n])) ==> forall n | n in now :: CurrentEmpty(now[n])
      ensures (forall n | n in mid :: mid[n].buffer.readQueue == []) ==> forall n | n in mid :: Succeeds(mid[n])
    {
      hide Total;
      forall n | n in mid && mid[n].buffer.readQueue == []
        ensures Succeeds(mid[n])
      {
        DrainedSucceeds(mid[n].buffer);
      }
      hide AtRest;
    }

    static lemma DrainMovesAll(was: map<string, Variable>, mid: map<string, Variable>, now: map<string, Variable>)
      requires mid.Keys == was.Keys && now.Keys == mid.Keys
      requires forall n | n in was :: Moved(was[n], mid[n])
      requires forall n | n in mid :: Drained(mid[n], now[n])
      ensures forall n | n in was :: Moved(was[n], now[n])
      ensures forall n | n in now :: now[n].buffer.readQueue == []
      ensures (forall n | n in mid :: CurrentEmpty(mid[n])) ==> forall n | n in now :: CurrentEmpty(now[n])
    {
      hide Total;
    }

    static lemma MovedFinished(was: Variable, now: Variable, ws: seq<Write>, name: string)
      requires Moved(was, now) && Sound(now, ws, name)
      requires CurrentEmpty(now) && now.buffer.readQueue == []
      ensures Finished(was, now, ws, name)
    {
    }
  }

  /** After the destructor the file holds all samples that were accepted, in order, if and only if no
      block was discarded and none overwritten. Otherwise it holds, behind what was overwritten, the
      samples of the blocks that were not discarded. */
  lemma FinishedMeans(was: Variable, now: Variable, ws: seq<Write>, name: string)
    requires MatLogger2.Finished(was, now, ws, name) && MatLogger2.Sound(now, ws, name)
    ensures WrittenTo(ws, name) == was.buffer.accepted <==> !Lossy(now.buffer) && now.buffer.evicted == []
    ensures now.buffer.evicted + WrittenTo(ws, name) == Kept(now.buffer.closed)
    ensures was.buffer.accepted == All(now.buffer.closed)
  {
    hide Conserved, CallsShaped, WrittenTo;
    KeptAll(now.buffer.closed, now.buffer.size);
    NothingMissing(now.buffer);
    assert WrittenTo(ws, name) == now.buffer.delivered;
    assert now.buffer.delivered == Stream(now.buffer) + Pending(now.buffer);
  }

  lemma FlushDelivers(s: Buffer)
    requires AtRest(s) && !s.circular
    ensures Flushed(s).delivered == s.delivered
  {
    hide Conserved, Local, History;
  }
}
