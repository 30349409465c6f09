/** The evicting log FIFO: writers append under a semaphore and drop old bytes to
    make room; one drainer measures and drains in two separate critical sections, or gives up
    between them. */
module LogFifo {
  import opened Bits
  import opened Overwrite

  /** fifo_is_enough: when `n` bytes do not fit, `n` bytes are thrown away. */
  function Evict(q: seq<byte>, cap: nat, n: nat): seq<byte> {
    if |q| >= cap || cap - |q| < n then q[Min(n, |q|)..] else q
  }

  /** fifo_is_enough followed by kfifo_in, which takes what fits. */
  function PutChunk(q: seq<byte>, cap: nat, c: seq<byte>): seq<byte>
    requires |q| <= cap
  {
    var r := Evict(q, cap, |c|);
    r + c[..Min(|c|, cap - |r|)]
  }

  /** One message: the time, then the text. */
  function PutMessage(q: seq<byte>, cap: nat, time: seq<byte>, msg: seq<byte>): seq<byte>
    requires |q| <= cap
  {
    PutChunk(PutChunk(q, cap, time), cap, msg)
  }

  class Device {
    const capacity: nat
    var fifo: seq<byte>

    ghost predicate Valid()
      reads this
    {
      |fifo| <= capacity
    }

    constructor (capacity: nat)
      ensures Valid() && this.capacity == capacity && fifo == []
    {
      this.capacity, fifo := capacity, [];
    }

    method KfifoIn(c: seq<byte>) returns (n: nat)
      requires Valid()
      modifies this`fifo
      ensures Valid() && n == Min(|c|, capacity - old(|fifo|)) && fifo == old(fifo) + c[..n]
    {
      n := Min(|c|, capacity - |fifo|);
      fifo := fifo + c[..n];
    }

    method KfifoOut(len: nat) returns (out: seq<byte>)
      requires Valid()
      modifies this`fifo
      ensures Valid() && |out| == Min(len, old(|fifo|)) && out + fifo == old(fifo)
    {
      var n := Min(len, |fifo|);
      out, fifo := fifo[..n], fifo[n..];
    }

    /** fifo_is_enough. */
    method FifoIsEnough(len: nat)
      requires Valid()
      modifies this`fifo
      ensures Valid() && fifo == Evict(old(fifo), capacity, len)
    {
      if |fifo| == capacity || capacity - |fifo| < len {
        ghost var q := fifo;
        var out := KfifoOut(len);
        assert fifo == q[|out|..];
      }
    }

    /** The critical section of lidbg_fifo_put and of lidbg_msg_write. */
    method Put(time: seq<byte>, msg: seq<byte>)
      requires Valid()
      modifies this`fifo
      ensures Valid() && fifo == PutMessage(old(fifo), capacity, time, msg)
    {
      FifoIsEnough(|time|);
      var _ := KfifoIn(time);
      FifoIsEnough(|msg|);
      var _ := KfifoIn(msg);
    }

    /** The first critical section of lidbg_fifo_get. */
    method Measure() returns (len: nat)
      requires Valid()
      ensures len == |fifo|
    {
      len := |fifo|;
    }

    /** The second critical section of lidbg_fifo_get. */
    method Drain(len: nat) returns (out: seq<byte>)
      requires Valid()
      modifies this`fifo
      ensures Valid() && out == old(fifo)[..Min(len, old(|fifo|))] && fifo == old(fifo)[Min(len, old(|fifo|))..]
    {
      ghost var q := fifo;
      out := KfifoOut(len);
      assert out == q[..|out|] && fifo == q[|out|..];
    }

    /** The device serves any interleaving of writers and the drainer exactly as
        the run of the lemmas below, delivery by delivery. */
    method RunAll(steps: seq<Step>) returns (out: seq<seq<byte>>)
      requires Valid() && fifo == []
      modifies this`fifo
      ensures Valid() && fifo == Run(capacity, steps).fifo && |out| == |Run(capacity, steps).delivered|
      ensures forall i | 0 <= i < |out| :: out[i] == Run(capacity, steps).delivered[i].bytes
    {
      hide PutMessage;
      out := [];
      var drainer, len: nat := false, 0;
      assert steps[..0] == [];
      for i := 0 to |steps|
        invariant Valid() && Shows(Run(capacity, steps[..i]), fifo, drainer, len, out)
      {
        RunSnoc(capacity, steps, i);
        match steps[i] {
          case Put(time, msg) => Put(time, msg);
          case Measure =>
            if !drainer {
              len := Measure();
              drainer := true;
            }
          case Abandon => drainer := false;
          case Drain =>
            if drainer {
              var bytes := Drain(len);
              out, drainer := out + [bytes], false;
            }
        }
      }
      assert steps[..|steps|] == steps;
    }
  }

  // ---- one chunk ----

  /** A chunk is stored whole exactly when it is not longer than the FIFO. */
  lemma Truncates(q: seq<byte>, cap: nat, c: seq<byte>)
    requires |q| <= cap
    ensures PutChunk(q, cap, c) == Evict(q, cap, |c|) + c <==> |c| <= cap
  {
    if |c| > cap { assert |PutChunk(q, cap, c)| <= cap; }
  }

  /** A put drops old bytes only, never lowers the occupancy, and after dropping leaves less than a chunk free. */
  lemma PutFacts(q: seq<byte>, cap: nat, c: seq<byte>)
    requires |q| <= cap && |c| <= cap
    ensures var r := PutChunk(q, cap, c);
            && |q| <= |r| <= cap && |r| <= |q| + |c|
            && r == (q + c)[|q| + |c| - |r|..]
            && (|r| < |q| + |c| ==> |r| + |c| > cap)
            && |r| == (if |q| + |c| <= cap then |q| + |c| else if |c| <= |q| then |q| else |c|)
  {
    var e := Evict(q, cap, |c|);
    assert PutChunk(q, cap, c) == e + c;
    assert e == q[|q| - |e|..];
  }

  /** Making room drops nothing if the chunk fits, and as many bytes as it is long, or all, if not. */
  lemma EvictExactly(q: seq<byte>, cap: nat, n: nat)
    requires |q| <= cap
    ensures Evict(q, cap, n) == if |q| + n <= cap || n == 0 then q else if n <= |q| then q[n..] else []
  {}

  /** A message is its time, then its text: behind a put the FIFO ends with what fits of
      them, whole and in that order if there was room. */
  lemma TimeThenText(q: seq<byte>, cap: nat, time: seq<byte>, msg: seq<byte>)
    requires |q| <= cap && |time| <= cap && |msg| <= cap
    ensures var r := PutMessage(q, cap, time, msg);
            && |q| <= |r| <= cap && r == (q + time + msg)[|q + time + msg| - |r|..]
            && (|q| + |time| + |msg| <= cap ==> r == q + time + msg)
  {
    hide PutChunk;
    var m := PutChunk(q, cap, time);
    PutFacts(q, cap, time);
    PutFacts(m, cap, msg);
    var gone := |q| + |time| - |m|;
    SuffixGrows(q + time, gone, msg);
    SuffixOfSuffix(q + time + msg, gone, |m| + |msg| - |PutMessage(q, cap, time, msg)|);
  }

  // ---- all interleavings ----

  datatype Delivery = Delivery(pos: nat, asked: nat, bytes: seq<byte>)

  /** The drainer, between its two critical sections: the length it read, and how much had been put by then. */
  datatype Drainer = Idle | Measured(len: nat, at: nat)

  /** `stream` is everything ever put. */
  datatype System = System(
    fifo: seq<byte>, stream: seq<byte>, drainer: Drainer,
    delivered: seq<Delivery>, mark: nat, dropped: bool, evicted: nat)

  /** `Abandon`: the buffer for the measured length cannot be allocated. */
  datatype Step = Put(time: seq<byte>, msg: seq<byte>) | Measure | Abandon | Drain

  const Start := System([], [], Idle, [], 0, false, 0)

  predicate Enabled(s: System, step: Step) {
    match step
    case Put(_, _) => true
    case Measure => s.drainer.Idle?
    case Abandon => s.drainer.Measured?
    case Drain => s.drainer.Measured?
  }

  predicate Fits(step: Step, longest: nat) {
    step.Put? ==> |step.time| <= longest && |step.msg| <= longest
  }

  predicate Sane(s: System, cap: nat) { |s.fifo| <= cap && |s.fifo| <= |s.stream| }

  /** `dropped` is reset by a drain, `evicted` counts every byte ever thrown away. */
  function PutOne(s: System, cap: nat, c: seq<byte>): (r: System)
    requires Sane(s, cap)
    ensures Sane(r, cap)
  {
    var q := PutChunk(s.fifo, cap, c);
    s.(fifo := q, stream := s.stream + c, dropped := s.dropped || |q| < |s.fifo| + |c|,
       evicted := s.evicted + (|s.fifo| + |c| - |q|))
  }

  /** One step of some thread; a step that is not enabled waits. */
  function Next(s: System, cap: nat, step: Step): (r: System)
    requires Sane(s, cap)
    ensures Sane(r, cap)
    ensures step.Put? ==> r.fifo == PutMessage(s.fifo, cap, step.time, step.msg)
  {
    if !Enabled(s, step) then s
    else match step
      case Put(time, msg) => PutOne(PutOne(s, cap, time), cap, msg)
      case Measure => s.(drainer := Measured(|s.fifo|, |s.stream|))
      case Abandon => s.(drainer := Idle)
      case Drain =>
        var n := Min(s.drainer.len, |s.fifo|);
        s.(fifo := s.fifo[n..], drainer := Idle, mark := s.drainer.at, dropped := false,
           delivered := s.delivered + [Delivery(|s.stream| - |s.fifo|, s.drainer.len, s.fifo[..n])])
  }

  function Run(cap: nat, steps: seq<Step>): (s: System)
    ensures Sane(s, cap)
  {
    if steps == [] then Start else Next(Run(cap, steps[..|steps| - 1]), cap, steps[|steps| - 1])
  }

  lemma RunSnoc(cap: nat, steps: seq<Step>, i: nat)
    requires i < |steps|
    ensures Run(cap, steps[..i + 1]) == Next(Run(cap, steps[..i]), cap, steps[i])
  {
    hide Next;
    assert steps[..i + 1][..i] == steps[..i];
  }

  /** The device's side of a state: its bytes, the drainer's local variables, and what was handed out. */
  ghost predicate Shows(s: System, fifo: seq<byte>, drainer: bool, len: nat, out: seq<seq<byte>>) {
    && s.fifo == fifo && s.drainer.Measured? == drainer && (drainer ==> s.drainer.len == len)
    && |out| == |s.delivered| && forall i | 0 <= i < |out| :: out[i] == s.delivered[i].bytes
  }

  function End(d: Delivery): nat { d.pos + |d.bytes| }

  function Total(ds: seq<Delivery>): nat {
    if ds == [] then 0 else Total(ds[..|ds| - 1]) + |ds[|ds| - 1].bytes|
  }

  /** The deliveries are disjoint pieces of the stream, in stream order, of the lengths measured. */
  ghost predicate InOrder(ds: seq<Delivery>, stream: seq<byte>, upTo: nat) {
    && (forall i | 0 <= i < |ds| ::
          && End(ds[i]) <= upTo <= |stream|
          && ds[i].bytes == stream[ds[i].pos..End(ds[i])] && |ds[i].bytes| == ds[i].asked)
    && (forall i, j | 0 <= i < j < |ds| :: End(ds[i]) <= ds[j].pos)
  }

  ghost predicate Inv(s: System, cap: nat, longest: nat) {
    && Sane(s, cap) && s.mark <= |s.stream|
    // every byte put was delivered, is still there, or was evicted
    && |s.stream| == Total(s.delivered) + |s.fifo| + s.evicted
    // the FIFO is a suffix of what was put since the last drain measured
    && s.fifo == s.stream[|s.stream| - |s.fifo|..]
    && |s.fifo| <= |s.stream| - s.mark
    // what the drainer measured is still there, and what exceeds it came later
    && (s.drainer.Measured? ==>
          && s.drainer.len <= |s.fifo| && s.drainer.at <= |s.stream|
          && |s.fifo| <= s.drainer.len + (|s.stream| - s.drainer.at))
    && InOrder(s.delivered, s.stream, |s.stream| - |s.fifo|)
    // once bytes were dropped, less than a longest chunk is free
    && (s.dropped ==> |s.fifo| + longest > cap)
  }

  lemma InOrderGrows(ds: seq<Delivery>, stream: seq<byte>, more: seq<byte>, a: nat, b: nat)
    requires InOrder(ds, stream, a) && a <= b <= |stream| + |more|
    ensures InOrder(ds, stream + more, b)
  {
    forall i | 0 <= i < |ds| ensures ds[i].bytes == (stream + more)[ds[i].pos..End(ds[i])] {
      assert (stream + more)[ds[i].pos..End(ds[i])] == stream[ds[i].pos..End(ds[i])];
    }
  }

  lemma PutKeeps(s: System, cap: nat, longest: nat, c: seq<byte>)
    requires Inv(s, cap, longest) && |c| <= longest <= cap
    ensures Inv(PutOne(s, cap, c), cap, longest)
  {
    hide PutChunk, InOrder, Total;
    var r := PutOne(s, cap, c);
    PutFacts(s.fifo, cap, c);
    SuffixGrows(s.stream, |s.stream| - |s.fifo|, c);
    InOrderGrows(s.delivered, s.stream, c, |s.stream| - |s.fifo|, |r.stream| - |r.fifo|);
    SuffixOfSuffix(s.stream + c, |s.stream| - |s.fifo|, |s.fifo| + |c| - |r.fifo|);
  }

  lemma SuffixGrows(s: seq<byte>, a: nat, c: seq<byte>)
    requires a <= |s|
    ensures s[a..] + c == (s + c)[a..]
  {}

  lemma SuffixOfSuffix(s: seq<byte>, a: nat, b: nat)
    requires a + b <= |s|
    ensures s[a..][b..] == s[a + b..]
  {}

  lemma InOrderSnoc(ds: seq<Delivery>, stream: seq<byte>, at: nat, n: nat)
    requires InOrder(ds, stream, at) && at + n <= |stream|
    ensures InOrder(ds + [Delivery(at, n, stream[at..at + n])], stream, at + n)
  {
    assert stream + [] == stream;
    InOrderGrows(ds, stream, [], at, at + n);
  }

  lemma TotalSnoc(ds: seq<Delivery>, d: Delivery)
    ensures Total(ds + [d]) == Total(ds) + |d.bytes|
  {
    assert (ds + [d])[..|ds|] == ds;
  }

  lemma DrainKeeps(s: System, cap: nat, longest: nat)
    requires Inv(s, cap, longest) && s.drainer.Measured? && longest <= cap
    ensures Inv(Next(s, cap, Drain), cap, longest)
  {
    hide InOrder, Total;
    var n, at := s.drainer.len, |s.stream| - |s.fifo|;
    SuffixOfSuffix(s.stream, at, n);
    InOrderSnoc(s.delivered, s.stream, at, n);
    assert s.fifo[..n] == s.stream[at..at + n];
    TotalSnoc(s.delivered, Delivery(at, n, s.fifo[..n]));
  }

  lemma StartInv(cap: nat, longest: nat)
    ensures Inv(Start, cap, longest)
  {}

  /** Every interleaving of writers and the drainer, with chunks that fit: the
      FIFO is a suffix of the stream, each drain delivers exactly what it
      measured, and no byte is delivered twice or out of order. */
  lemma {:induction false} AlwaysInv(steps: seq<Step>, cap: nat, longest: nat)
    requires longest <= cap && forall step | step in steps :: Fits(step, longest)
    ensures Inv(Run(cap, steps), cap, longest)
  {
    hide InOrder, PutChunk, Total;
    if steps == [] {
      StartInv(cap, longest);
    } else {
      var last: Step, t := steps[|steps| - 1], Run(cap, steps[..|steps| - 1]);
      AlwaysInv(steps[..|steps| - 1], cap, longest);
      assert last in steps;
      match last {
        case Put(time, msg) =>
          PutKeeps(t, cap, longest, time);
          PutKeeps(PutOne(t, cap, time), cap, longest, msg);
        case Measure =>
        case Abandon =>
        case Drain => if t.drainer.Measured? { DrainKeeps(t, cap, longest); }
      }
    }
  }

  /** The times and texts of all writers, in the order of their critical sections. */
  function Said(steps: seq<Step>): seq<byte> {
    if steps == [] then []
    else
      var last := steps[|steps| - 1];
      Said(steps[..|steps| - 1]) + if last.Put? then last.time + last.msg else []
  }

  /** Every run: the stream of which the deliveries are pieces is what the writers said. */
  lemma {:induction false} StreamIsSaid(cap: nat, steps: seq<Step>)
    ensures Run(cap, steps).stream == Said(steps)
  {
    hide PutChunk;
    if steps != [] {
      var before, last := steps[..|steps| - 1], steps[|steps| - 1];
      StreamIsSaid(cap, before);
      if last.Put? { Assoc(Said(before), last.time, last.msg); }
    }
  }
}
