/** The message ring: writers fill the slot at w_pos under a semaphore, byte by
    byte, and then signal a completion; one reader waits, prints the slot at r_pos
    byte by byte and advances.  Nothing stops the writers from lapping the reader. */
module MsgRing {
  import opened Bits

  const TOTAL_LOGS: nat := 50
  const LOG_BYTES: nat := 256

  type Message = seq<byte>
  type Block = s: seq<byte> | |s| == LOG_BYTES witness Zeros(LOG_BYTES)

  function Zeros(n: nat): (r: seq<byte>)
    ensures |r| == n
    ensures forall i | 0 <= i < n :: r[i] == 0
  {
    seq(n, _ => 0)
  }

  function CStr(s: seq<byte>): (m: Message)
    ensures |m| <= |s| && 0 !in m && m == s[..|m|]
    ensures |m| < |s| ==> s[|m|] == 0
  {
    if s == [] || s[0] == 0 then [] else [s[0]] + CStr(s[1..])
  }

  /** How many bytes a write copies. */
  function Size(buffer: seq<byte>): nat { if |buffer| > LOG_BYTES then LOG_BYTES else |buffer| }

  /** The C string a write of at least one byte leaves in a slot: its last byte is forced to NUL. */
  function Text(buffer: seq<byte>): Message
    requires |buffer| >= 1
  {
    CStr(buffer[..Size(buffer) - 1])
  }

  // ---- all interleavings ----

  /** `Read` looks at the next byte of the slot, and prints when it is NUL. */
  datatype Step = Begin(buffer: seq<byte>) | Copy | Finish | Complete | Take | Read

  /** The holder of the semaphore, with the bytes it has copied so far. */
  datatype Writer = Free | Copying(buffer: seq<byte>, done: nat)

  /** `since`: the writes that had finished when the first byte was read. */
  datatype Reader = Waiting | Reading(got: seq<byte>, since: nat)

  /** A print, with the writes finished when it began and started when it ended. */
  datatype Print = Print(text: Message, since: nat, started: nat)

  /** The ring with its history: the text each finished write left, the
      completions signalled, and the prints. */
  datatype State = State(
    wPos: nat, rPos: nat, log: seq<Block>, ready: nat, writer: Writer, reader: Reader,
    written: seq<Message>, completed: nat, prints: seq<Print>)

  function Blank(n: nat): (r: seq<Block>)
    ensures |r| == n && forall i | 0 <= i < n :: r[i] == Zeros(LOG_BYTES)
  {
    seq(n, _ => Zeros(LOG_BYTES))
  }

  const START: State := State(0, 0, Blank(TOTAL_LOGS), 0, Free, Waiting, [], 0, [])

  function Started(s: State): nat { |s.written| + if s.writer.Copying? then 1 else 0 }

  predicate Shaped(s: State) {
    && |s.log| == TOTAL_LOGS && s.wPos < TOTAL_LOGS && s.rPos < TOTAL_LOGS
    && (s.writer.Copying? ==> s.writer.done <= Size(s.writer.buffer))
  }

  predicate Enabled(s: State, step: Step) {
    match step
    case Begin(_) => s.writer.Free?
    case Copy => s.writer.Copying? && s.writer.done < Size(s.writer.buffer)
    case Finish => s.writer.Copying? && s.writer.done == Size(s.writer.buffer)
    case Complete => s.completed < |s.written| // a writer is between up() and complete()
    case Take => s.ready > 0 && s.reader.Waiting?
    case Read => s.reader.Reading?
  }

  /** The NUL a write stores, at `n - 1` of its slot; for a size of 0 that is the
      last byte of the slot before, or, before slot 0, the high byte of r_pos. */
  function Terminate(log: seq<Block>, w: nat, n: nat): (r: seq<Block>)
    requires w < |log| && n <= LOG_BYTES
    ensures |r| == |log|
  {
    if n > 0 then log[w := log[w][n - 1 := 0]]
    else if w > 0 then log[w - 1 := log[w - 1][LOG_BYTES - 1 := 0]]
    else log
  }

  /** The `i`-th byte from the start of slot `r` on, NUL behind the ring. */
  function ByteAt(log: seq<Block>, r: nat, i: nat): byte {
    if r + i / LOG_BYTES < |log| then log[r + i / LOG_BYTES][i % LOG_BYTES] else 0
  }

  /** One step of some thread; a step that is not enabled waits. */
  function Next(s: State, step: Step): (r: State)
    requires Shaped(s)
    ensures Shaped(r)
  {
    if !Enabled(s, step) then s
    else match step
      case Begin(buffer) => s.(writer := Copying(buffer, 0))
      case Copy =>
        var i := s.writer.done;
        s.(writer := s.writer.(done := i + 1), log := s.log[s.wPos := s.log[s.wPos][i := s.writer.buffer[i]]])
      case Finish =>
        var log := Terminate(s.log, s.wPos, s.writer.done);
        s.(writer := Free, wPos := (s.wPos + 1) % TOTAL_LOGS, log := log, written := s.written + [CStr(log[s.wPos])])
      case Complete => s.(ready := s.ready + 1, completed := s.completed + 1)
      case Take => s.(ready := s.ready - 1, reader := Reading([], |s.written|))
      case Read =>
        var got, b := s.reader.got, ByteAt(s.log, s.rPos, |s.reader.got|);
        var since := if got == [] then |s.written| else s.reader.since;
        if b != 0 then s.(reader := Reading(got + [b], since))
        else s.(rPos := (s.rPos + 1) % TOTAL_LOGS, reader := Waiting,
                prints := s.prints + [Print(got, since, Started(s))])
  }

  function Run(steps: seq<Step>): (s: State)
    ensures Shaped(s)
  {
    if steps == [] then START else Next(Run(steps[..|steps| - 1]), steps[|steps| - 1])
  }

  lemma Extend(steps: seq<Step>, step: Step)
    ensures Run(steps + [step]) == Next(Run(steps), step)
  {
    hide Next;
    assert (steps + [step])[..|steps|] == steps;
  }

  // ---- the driver ----

  class Ring {
    var wPos: nat
    var rPos: nat
    const log: array2<byte>
    var ready: nat // the count of the completion msg_ready

    ghost predicate Valid()
      reads this
    {
      log.Length0 == TOTAL_LOGS && log.Length1 == LOG_BYTES && wPos < TOTAL_LOGS && rPos < TOTAL_LOGS
    }

    /** The fields are those of the abstract state. */
    ghost predicate Is(s: State)
      reads this, log
    {
      && Valid() && Shaped(s) && wPos == s.wPos && rPos == s.rPos && ready == s.ready
      && forall i, j | 0 <= i < TOTAL_LOGS && 0 <= j < LOG_BYTES :: log[i, j] == s.log[i][j]
    }

    constructor ()
      ensures Is(START) && fresh(log)
    {
      wPos, rPos, ready := 0, 0, 0;
      log := new byte[TOTAL_LOGS, LOG_BYTES]((_, _) => 0);
    }

    /** One byte of copy_from_user. */
    method CopyByte(i: nat, b: byte, ghost s: State)
      requires Is(s) && Enabled(s, Copy) && i == s.writer.done && b == s.writer.buffer[i]
      modifies log
      ensures Is(Next(s, Copy))
    {
      log[wPos, i] := b;
    }

    /** msg_write from the safety NUL to the release of the semaphore. */
    method FinishWrite(size: nat, ghost s: State)
      requires Is(s) && Enabled(s, Finish) && size == |s.writer.buffer|
      modifies this`wPos, log
      ensures Is(Next(s, Finish))
    {
      hide CStr;
      var n := if size > LOG_BYTES then LOG_BYTES else size;
      if n > 0 { log[wPos, n - 1] := 0; } else if wPos > 0 { log[wPos - 1, LOG_BYTES - 1] := 0; }
      wPos := (wPos + 1) % TOTAL_LOGS;
    }

    /** complete(&msg_ready). */
    method Signal(ghost s: State)
      requires Is(s) && Enabled(s, Complete)
      modifies this`ready
      ensures Is(Next(s, Complete))
    {
      ready := ready + 1;
    }

    /** wait_for_completion returns. */
    method Awake(ghost s: State)
      requires Is(s) && Enabled(s, Take)
      modifies this`ready
      ensures Is(Next(s, Take))
    {
      ready := ready - 1;
    }

    /** thread_msg reads on in the slot, and advances at the NUL. */
    method ReadByte(got: seq<byte>, ghost s: State) returns (b: byte)
      requires Is(s) && Enabled(s, Read) && got == s.reader.got
      modifies this`rPos
      ensures Is(Next(s, Read)) && b == ByteAt(s.log, s.rPos, |got|)
    {
      var slot := rPos + |got| / LOG_BYTES;
      b := if slot < TOTAL_LOGS then log[slot, |got| % LOG_BYTES] else 0;
      if b == 0 { rPos := (rPos + 1) % TOTAL_LOGS; }
    }

    /** The threads, with their local variables, run any interleaving as the run
        of the lemmas below, and print its texts. */
    method RunAll(steps: seq<Step>) returns (out: seq<Message>)
      requires Is(START)
      modifies this, log
      ensures Is(Run(steps)) && Texts(Run(steps), out)
    {
      hide Run, CStr, Terminate, ByteAt;
      var writing, buffer, done: nat := false, [], 0; // the writer in the critical section
      var unsignalled: nat := 0;                      // writers that released the semaphore
      var reading, got := false, [];                  // the reader
      out := [];
      assert steps[..0] == [];
      NothingRun();
      for i := 0 to |steps|
        invariant Is(Run(steps[..i])) && Texts(Run(steps[..i]), out)
        invariant Locals(Run(steps[..i]), writing, buffer, done, unsignalled, reading, got)
      {
        ghost var s, step := Run(steps[..i]), steps[i];
        assert steps[..i + 1] == steps[..i] + [step];
        Extend(steps[..i], step);
        match steps[i] {
          case Begin(b) =>
            if !writing { writing, buffer, done := true, b, 0; }
          case Copy =>
            if writing && done < |buffer| && done < LOG_BYTES {
              CopyByte(done, buffer[done], s);
              done := done + 1;
            }
          case Finish =>
            if writing && (done == |buffer| || done == LOG_BYTES) {
              FinishWrite(|buffer|, s);
              writing, unsignalled := false, unsignalled + 1;
            }
          case Complete =>
            if unsignalled > 0 {
              Signal(s);
              unsignalled := unsignalled - 1;
            }
          case Take =>
            if ready > 0 && !reading {
              Awake(s);
              reading, got := true, [];
            }
          case Read =>
            if reading {
              var b := ReadByte(got, s);
              if b != 0 { got := got + [b]; } else { out, reading := out + [got], false; }
            }
        }
      }
      assert steps[..|steps|] == steps;
    }
  }

  /** What was printed. */
  ghost predicate Texts(s: State, out: seq<Message>) {
    |out| == |s.prints| && forall i | 0 <= i < |out| :: out[i] == s.prints[i].text
  }

  /** The local variables of the threads. */
  ghost predicate Locals(
    s: State, writing: bool, buffer: seq<byte>, done: nat, unsignalled: nat, reading: bool, got: seq<byte>)
  {
    && s.writer.Copying? == writing && (writing ==> s.writer == Copying(buffer, done))
    && s.completed + unsignalled == |s.written|
    && s.reader.Reading? == reading && (reading ==> s.reader.got == got)
  }

  lemma NothingRun()
    ensures Run([]) == START
  {}

  // ---- one slot ----

  /** The slot holds the text and its NUL. */
  predicate Holds(slot: Block, m: Message) {
    |m| < LOG_BYTES && slot[..|m|] == m && slot[|m|] == 0 && 0 !in m
  }

  /** A write of at least one byte leaves its text, whatever the slot held. */
  lemma Landed(slot: Block, buffer: seq<byte>)
    requires 1 <= |buffer| && slot[..Size(buffer)] == buffer[..Size(buffer)]
    ensures CStr(slot[Size(buffer) - 1 := 0]) == Text(buffer)
  {
    var n := Size(buffer) - 1;
    assert slot[n := 0][..n] == slot[..Size(buffer)][..n] == buffer[..n];
    CStrCut(slot[n := 0], n);
  }

  lemma {:induction false} CStrCut(s: seq<byte>, n: nat)
    requires n < |s| && s[n] == 0
    ensures CStr(s) == CStr(s[..n])
  {
    if n > 0 && s[0] != 0 {
      CStrCut(s[1..], n - 1);
      assert s[..n][1..] == s[1..][..n - 1];
    }
  }

  lemma HoldsCStr(slot: Block)
    requires slot[LOG_BYTES - 1] == 0
    ensures Holds(slot, CStr(slot))
  {
    var m := CStr(slot);
    assert slot[LOG_BYTES - 1] !in m;
  }

  // ---- the invariant ----

  /** The last of the first `writes` messages to land in the slot of message `k`. */
  function Latest(writes: nat, k: nat): (j: nat)
    requires k < writes
    ensures k <= j < writes <= j + TOTAL_LOGS && j % TOTAL_LOGS == k % TOTAL_LOGS
  {
    k + (writes - 1 - k) / TOTAL_LOGS * TOTAL_LOGS
  }

  /** No write to the slot began after the last one that had finished when print `k` began. */
  predicate Undisturbed(since: nat, started: nat, k: nat)
    requires k < since
  {
    started <= Latest(since, k) + TOTAL_LOGS
  }

  /** Positions are counts modulo the ring, and reads <= completions <= writes. */
  predicate Counts(s: State) {
    && s.wPos == |s.written| % TOTAL_LOGS && s.rPos == |s.prints| % TOTAL_LOGS
    && |s.prints| + (if s.reader.Reading? then 1 else 0) + s.ready == s.completed <= |s.written|
  }

  /** A slot can lack its final NUL only while 256 bytes are copied into it; a
      recent message stays in its slot until the write that replaces it begins. */
  ghost predicate Slots(s: State)
    requires Shaped(s)
  {
    && (forall i | 0 <= i < TOTAL_LOGS ::
          (i == s.wPos && s.writer.Copying? && |s.writer.buffer| >= LOG_BYTES) || s.log[i][LOG_BYTES - 1] == 0)
    && (forall j | 0 <= j < |s.written| && Started(s) <= j + TOTAL_LOGS ::
          Holds(s.log[j % TOTAL_LOGS], s.written[j]))
    && (s.writer.Copying? ==> s.log[s.wPos][..s.writer.done] == s.writer.buffer[..s.writer.done])
  }

  /** An undisturbed reader has a prefix of the message, an undisturbed print shows it whole. */
  ghost predicate Prints(s: State) {
    && (forall k | 0 <= k < |s.prints| ::
          var p := s.prints[k];
          && k < p.since <= |s.written| && p.since <= p.started <= Started(s)
          && (Undisturbed(p.since, p.started, k) ==> p.text == s.written[Latest(p.since, k)]))
    && (s.reader.Reading? && s.reader.got != [] ==>
          var k, since := |s.prints|, s.reader.since;
          && k < since <= |s.written|
          && (Undisturbed(since, Started(s), k) ==> s.reader.got <= s.written[Latest(since, k)]))
  }

  ghost predicate Inv(s: State) { Shaped(s) && Counts(s) && Slots(s) && Prints(s) }

  lemma OtherSlot(a: nat, j: nat)
    requires j < a < j + TOTAL_LOGS
    ensures j % TOTAL_LOGS != a % TOTAL_LOGS
  {}

  lemma ModStep(k: nat)
    ensures (k % TOTAL_LOGS + 1) % TOTAL_LOGS == (k + 1) % TOTAL_LOGS
  {}

  lemma BeginKeeps(s: State, buffer: seq<byte>)
    requires Inv(s) && s.writer.Free?
    ensures Inv(Next(s, Begin(buffer)))
  {
    hide Latest, Holds;
  }

  /** Signalling and waiting touch the counts alone. */
  lemma SignalKeeps(s: State, step: Step)
    requires Inv(s) && (step.Complete? || step.Take?)
    ensures Inv(Next(s, step))
  {
    hide Latest, Holds;
  }

  lemma CopyKeeps(s: State)
    requires Inv(s) && Enabled(s, Copy)
    ensures Inv(Next(s, Copy))
  {
    hide Latest, Holds;
    var r, i := Next(s, Copy), s.writer.done;
    forall j | 0 <= j < |r.written| && Started(r) <= j + TOTAL_LOGS
      ensures Holds(r.log[j % TOTAL_LOGS], r.written[j])
    {
      OtherSlot(|s.written|, j);
    }
    assert r.log[s.wPos][..i + 1] == s.log[s.wPos][..i] + [s.writer.buffer[i]];
  }

  /** The NUL a write of size 0 stores in front of its slot changes nothing. */
  lemma EmptyWrite(s: State)
    requires Inv(s) && s.writer.Copying? && s.writer.buffer == []
    ensures Terminate(s.log, s.wPos, 0) == s.log
  {
    if s.wPos > 0 {
      assert s.log[s.wPos - 1][LOG_BYTES - 1 := 0] == s.log[s.wPos - 1];
    }
  }

  /** What a finished write adds is the text of its buffer; a write of size 0
      repeats the text its slot holds. */
  lemma WhatIsWritten(s: State)
    requires Inv(s) && Enabled(s, Finish)
    ensures Next(s, Finish).written ==
            s.written + [if s.writer.buffer == [] then CStr(s.log[s.wPos]) else Text(s.writer.buffer)]
  {
    hide CStr, Counts, Prints, Holds, Text;
    if s.writer.buffer == [] { EmptyWrite(s); } else { Landed(s.log[s.wPos], s.writer.buffer); }
  }

  lemma FinishKeeps(s: State)
    requires Inv(s) && Enabled(s, Finish)
    ensures Inv(Next(s, Finish))
  {
    hide Latest, CStr, Holds;
    var r, w := Next(s, Finish), |s.written|;
    if s.writer.done == 0 { EmptyWrite(s); }
    HoldsCStr(r.log[s.wPos]);
    ModStep(w);
    forall j | 0 <= j < |r.written| && Started(r) <= j + TOTAL_LOGS
      ensures Holds(r.log[j % TOTAL_LOGS], r.written[j])
    {
      if j < w { OtherSlot(w, j); }
    }
  }

  lemma SlotsSame(s: State, r: State)
    requires Shaped(s) && Shaped(r) && Slots(s)
    requires r.log == s.log && r.wPos == s.wPos && r.writer == s.writer && r.written == s.written
    ensures Slots(r)
  {}

  lemma ReadCounts(s: State)
    requires Shaped(s) && Counts(s) && s.reader.Reading?
    ensures Counts(Next(s, Read)) && |s.prints| < |s.written|
  {
    hide ByteAt;
    ModStep(|s.prints|);
  }

  lemma ReadKeeps(s: State)
    requires Inv(s) && s.reader.Reading?
    ensures Inv(Next(s, Read))
  {
    hide Latest, Counts, Slots, ByteAt;
    var r, k, got := Next(s, Read), |s.prints|, s.reader.got;
    var since := if got == [] then |s.written| else s.reader.since;
    ReadCounts(s);
    SlotsSame(s, r);
    if Undisturbed(since, Started(s), k) { ReadIntact(s, since); }
  }

  /** Undisturbed, the next byte read is the next byte of the message, or its NUL. */
  lemma ReadIntact(s: State, since: nat)
    requires Inv(s) && s.reader.Reading? && since == (if s.reader.got == [] then |s.written| else s.reader.since)
    requires Undisturbed(since, Started(s), |s.prints|)
    ensures var m, n := s.written[Latest(since, |s.prints|)], |s.reader.got|;
            && s.reader.got <= m
            && ByteAt(s.log, s.rPos, n) == (if n < |m| then m[n] else 0)
            && (n < |m| ==> m[n] != 0)
  {
    hide Latest;
    var j, n := Latest(since, |s.prints|), |s.reader.got|;
    var m, slot := s.written[j], s.log[s.rPos];
    assert Holds(slot, m);
    assert n < |m| ==> slot[..|m|][n] == m[n];
  }

  lemma StartInv()
    ensures Inv(START)
  {}

  lemma StepKeeps(s: State, step: Step)
    requires Inv(s)
    ensures Inv(Next(s, step))
  {
    hide Inv;
    if Enabled(s, step) {
      match step {
        case Begin(buffer) => BeginKeeps(s, buffer);
        case Copy => CopyKeeps(s);
        case Finish => FinishKeeps(s);
        case Complete => SignalKeeps(s, step);
        case Take => SignalKeeps(s, step);
        case Read => ReadKeeps(s);
      }
    }
  }

  /** Every interleaving of every step. */
  lemma {:induction false} AlwaysInv(steps: seq<Step>)
    ensures Inv(Run(steps))
  {
    hide Next, Inv;
    if steps == [] {
      StartInv();
    } else {
      var s, last := Run(steps[..|steps| - 1]), steps[|steps| - 1];
      AlwaysInv(steps[..|steps| - 1]);
      StepKeeps(s, last);
    }
  }

  /** Every print of every run shows, whole, the latest message that landed in its
      slot before, if no write to that slot began meanwhile; and the k-th message
      whenever at most k + 50 writes have started. */
  lemma KthPrint(steps: seq<Step>, k: nat)
    requires k < |Run(steps).prints|
    ensures var s, p := Run(steps), Run(steps).prints[k];
            && k < p.since <= |s.written| && p.since <= p.started
            && (Undisturbed(p.since, p.started, k) ==> p.text == s.written[Latest(p.since, k)])
            && (p.started <= k + TOTAL_LOGS ==> p.text == s.written[k])
  {
    hide Counts, Slots;
    AlwaysInv(steps);
    var p := Run(steps).prints[k];
    assert p.started <= k + TOTAL_LOGS ==> Latest(p.since, k) == k;
  }

  /** The writes started are never more than `lag` ahead of the finished prints. */
  ghost predicate NeverAhead(steps: seq<Step>, lag: nat) {
    forall n | 0 <= n <= |steps| :: Started(Run(steps[..n])) <= |Run(steps[..n]).prints| + lag
  }

  ghost predicate InOrder(s: State) {
    |s.prints| <= |s.written| && forall k | 0 <= k < |s.prints| :: s.prints[k].text == s.written[k]
  }

  /** Writes only start, and a print records how many have. */
  lemma OneStep(s: State, step: Step)
    requires Shaped(s)
    ensures var r := Next(s, step);
            && Started(s) <= Started(r)
            && (r.prints == s.prints ||
                (|r.prints| == |s.prints| + 1 && r.prints[..|s.prints|] == s.prints &&
                 r.prints[|s.prints|].started == Started(s)))
  {
    hide CStr, ByteAt, Terminate;
  }

  lemma {:induction false} LagBound(steps: seq<Step>, lag: nat)
    requires NeverAhead(steps, lag)
    ensures forall k | 0 <= k < |Run(steps).prints| :: Run(steps).prints[k].started <= k + lag
  {
    hide Next, Started;
    if steps != [] {
      var before := steps[..|steps| - 1];
      forall n | 0 <= n <= |before|
        ensures Started(Run(before[..n])) <= |Run(before[..n]).prints| + lag
      {
        assert before[..n] == steps[..n];
      }
      LagBound(before, lag);
      assert before[..|before|] == before;
      OneStep(Run(before), steps[|before|]);
    }
  }

  /** If the writers stay within a ring, what is printed is what was written, in order. */
  lemma PrintsInOrder(steps: seq<Step>)
    requires NeverAhead(steps, TOTAL_LOGS)
    ensures InOrder(Run(steps))
  {
    hide Counts, Slots, Prints, Run;
    LagBound(steps, TOTAL_LOGS);
    AlwaysCounts(steps);
    forall k | 0 <= k < |Run(steps).prints| ensures Run(steps).prints[k].text == Run(steps).written[k] {
      KthPrint(steps, k);
    }
  }

  lemma AlwaysCounts(steps: seq<Step>)
    ensures Counts(Run(steps)) && |Run(steps).prints| <= |Run(steps).written|
  {
    AlwaysInv(steps);
  }

  // ---- what is written, told from the buffers alone ----

  /** The buffers of the writes that found the semaphore free: as many writes had
      finished as had begun. */
  function Begun(steps: seq<Step>): seq<seq<byte>> {
    if steps == [] then []
    else
      var before, last := steps[..|steps| - 1], steps[|steps| - 1];
      Begun(before) +
      if last.Begin? && |Begun(before)| == |Run(before).written| then [last.buffer] else []
  }

  /** The text of write `k`: its buffer, cut to 256 bytes, without the last one, up to
      the first NUL; a write of no bytes leaves what the slot held a ring earlier. */
  function TextOf(buffers: seq<seq<byte>>, k: nat): Message
    requires k < |buffers|
  {
    if buffers[k] != [] then CStr(buffers[k][..Min(|buffers[k]|, 256) - 1])
    else if k < 50 then []
    else TextOf(buffers, k - 50)
  }

  lemma {:induction false} TextOfPrefix(buffers: seq<seq<byte>>, more: seq<seq<byte>>, k: nat)
    requires k < |buffers|
    ensures TextOf(buffers + more, k) == TextOf(buffers, k)
  {
    if k >= 50 { TextOfPrefix(buffers, more, k - 50); }
  }

  lemma {:induction false} CStrWhole(s: seq<byte>)
    requires 0 !in s
    ensures CStr(s) == s
  {
    if s != [] { CStrWhole(s[1..]); }
  }

  lemma HeldText(slot: Block, m: Message)
    requires Holds(slot, m)
    ensures CStr(slot) == m
  {
    CStrCut(slot, |m|);
    CStrWhole(m);
  }

  /** The slot of the next write still holds the text it got a ring earlier. */
  predicate OldText(s: State)
    requires Shaped(s)
  {
    var w := |s.written|;
    CStr(s.log[s.wPos]) == if w < TOTAL_LOGS then [] else s.written[w - TOTAL_LOGS]
  }

  ghost predicate History(s: State, buffers: seq<seq<byte>>)
    requires Shaped(s)
  {
    && |buffers| == Started(s) && (s.writer.Copying? ==> s.writer.buffer == buffers[|buffers| - 1])
    && (forall k | 0 <= k < |s.written| :: s.written[k] == TextOf(buffers, k))
    && (s.writer.Copying? && s.writer.done == 0 ==> OldText(s))
    && (forall i | |s.written| <= i < TOTAL_LOGS ::
          (s.writer.Copying? && i == |s.written| && s.writer.done > 0) || s.log[i] == Zeros(LOG_BYTES))
  }

  lemma BeginsHistory(s: State, buffers: seq<seq<byte>>, buffer: seq<byte>)
    requires Inv(s) && History(s, buffers) && s.writer.Free?
    ensures History(Next(s, Begin(buffer)), buffers + [buffer])
  {
    hide TextOf, CStr, Prints, Holds;
    var w := |s.written|;
    forall k | 0 <= k < w ensures s.written[k] == TextOf(buffers + [buffer], k) {
      TextOfPrefix(buffers, [buffer], k);
    }
    if w < TOTAL_LOGS {
      EmptySlot();
    } else {
      HeldText(s.log[s.wPos], s.written[w - TOTAL_LOGS]);
    }
  }

  lemma EmptySlot()
    ensures CStr(Zeros(LOG_BYTES)) == []
  {}

  lemma CopiesHistory(s: State, buffers: seq<seq<byte>>)
    requires Inv(s) && History(s, buffers) && Enabled(s, Copy)
    ensures History(Next(s, Copy), buffers)
  {
    hide TextOf, CStr, Prints, Slots;
  }

  lemma FinishesHistory(s: State, buffers: seq<seq<byte>>)
    requires Inv(s) && History(s, buffers) && Enabled(s, Finish)
    ensures History(Next(s, Finish), buffers)
  {
    hide CStr, Prints, Slots, Zeros;
    var r, w := Next(s, Finish), |s.written|;
    WhatIsWritten(s);
    if s.writer.buffer == [] { EmptyWrite(s); }
    assert r.written[w] == TextOf(buffers, w);
    assert forall i | w < i < TOTAL_LOGS :: r.log[i] == s.log[i];
  }

  lemma HistoryKeeps(s: State, buffers: seq<seq<byte>>, step: Step)
    requires Inv(s) && History(s, buffers)
    ensures History(Next(s, step), buffers + if step.Begin? && s.writer.Free? then [step.buffer] else [])
  {
    hide TextOf, CStr, Inv, Zeros;
    assert buffers + [] == buffers;
    match step {
      case Begin(buffer) => if s.writer.Free? { BeginsHistory(s, buffers, buffer); }
      case Copy => if Enabled(s, step) { CopiesHistory(s, buffers); }
      case Finish => if Enabled(s, step) { FinishesHistory(s, buffers); }
      case _ =>
    }
  }

  lemma {:induction false} AlwaysHistory(steps: seq<Step>)
    ensures History(Run(steps), Begun(steps))
  {
    hide TextOf, Next;
    if steps != [] {
      var before, last := steps[..|steps| - 1], steps[|steps| - 1];
      AlwaysHistory(before);
      AlwaysInv(before);
      HistoryKeeps(Run(before), Begun(before), last);
    }
  }

  /** Every run: write `k` leaves the text of the `k`-th buffer that was let in. */
  lemma WrittenFromBuffers(steps: seq<Step>)
    ensures |Run(steps).written| <= |Begun(steps)| <= |Run(steps).written| + 1
    ensures forall k | 0 <= k < |Run(steps).written| :: Run(steps).written[k] == TextOf(Begun(steps), k)
  {
    hide Run, TextOf;
    AlwaysHistory(steps);
  }

  /** If the writers stay within a ring, the reader prints the texts of the buffers, in order. */
  lemma BuffersInOrder(steps: seq<Step>)
    requires NeverAhead(steps, TOTAL_LOGS)
    ensures |Run(steps).prints| <= |Begun(steps)|
    ensures forall k | 0 <= k < |Run(steps).prints| :: Run(steps).prints[k].text == TextOf(Begun(steps), k)
  {
    hide Run, TextOf, NeverAhead;
    WrittenFromBuffers(steps);
    PrintsInOrder(steps);
  }

  // ---- nothing is left unprinted ----

  /** The threads alone, without a new write, always come to print everything. */
  lemma CatchUp(steps0: seq<Step>) returns (steps: seq<Step>)
    ensures var s := Run(steps);
            && s.writer.Free? && s.reader.Waiting? && |s.prints| == |s.written| == |Begun(steps)|
            && Begun(steps) == Begun(steps0)
  {
    hide Run, Next, Inv;
    steps := FinishAll(steps0);
    steps := SignalAll(steps);
    steps := PrintAll(steps);
    AlwaysHistory(steps);
  }

  lemma Quiet(steps: seq<Step>, step: Step)
    requires !step.Begin?
    ensures Run(steps + [step]) == Next(Run(steps), step) && Begun(steps + [step]) == Begun(steps)
  {
    hide Next;
    Extend(steps, step);
    assert (steps + [step])[..|steps|] == steps;
  }

  lemma {:induction false} FinishAll(steps0: seq<Step>) returns (steps: seq<Step>)
    ensures Run(steps).writer.Free? && Begun(steps) == Begun(steps0)
    decreases var w := Run(steps0).writer; if w.Copying? then 1 + Size(w.buffer) - w.done else 0
  {
    hide Run, Begun, CStr, Terminate;
    steps := steps0;
    var s := Run(steps);
    if Enabled(s, Copy) {
      Quiet(steps, Copy);
      steps := FinishAll(steps + [Copy]);
    } else if Enabled(s, Finish) {
      Quiet(steps, Finish);
      steps := steps + [Finish];
    }
  }

  lemma {:induction false} SignalAll(steps0: seq<Step>) returns (steps: seq<Step>)
    requires Run(steps0).writer.Free?
    ensures Run(steps).writer.Free? && Begun(steps) == Begun(steps0)
    ensures Run(steps).completed == |Run(steps).written|
    decreases |Run(steps0).written| - Run(steps0).completed
  {
    hide Run, Begun, Prints, Slots;
    steps := steps0;
    AlwaysInv(steps);
    if Enabled(Run(steps), Complete) {
      Quiet(steps, Complete);
      steps := SignalAll(steps + [Complete]);
    }
  }

  lemma {:induction false} PrintAll(steps0: seq<Step>) returns (steps: seq<Step>)
    requires Run(steps0).writer.Free? && Run(steps0).completed == |Run(steps0).written|
    ensures var s := Run(steps);
            s.writer.Free? && s.reader.Waiting? && |s.prints| == |s.written| && Begun(steps) == Begun(steps0)
    decreases |Run(steps0).written| - |Run(steps0).prints|,
              if Run(steps0).reader.Waiting? then 1 + TOTAL_LOGS * LOG_BYTES
              else TOTAL_LOGS * LOG_BYTES - |Run(steps0).reader.got|
  {
    hide Run, Begun, Prints, Slots;
    steps := steps0;
    var s := Run(steps);
    AlwaysInv(steps);
    if s.reader.Reading? {
      Quiet(steps, Read);
      AlwaysInv(steps + [Read]);
      steps := PrintAll(steps + [Read]);
    } else if s.ready > 0 {
      Quiet(steps, Take);
      steps := PrintAll(steps + [Take]);
    }
  }

  // ---- a torn print, one write beyond the ring ----

  lemma {:induction false} StartedGrows(steps: seq<Step>, n: nat)
    requires n <= |steps|
    ensures Started(Run(steps[..n])) <= Started(Run(steps))
  {
    hide Next, Started;
    if n == |steps| {
      assert steps[..n] == steps;
    } else {
      var before := steps[..|steps| - 1];
      assert before[..n] == steps[..n];
      StartedGrows(before, n);
      OneStep(Run(before), steps[|before|]);
    }
  }

  /** A copy runs to its end while the other threads rest. */
  lemma {:induction false} CopyAll(steps0: seq<Step>) returns (steps: seq<Step>)
    requires Run(steps0).writer.Copying?
    ensures var s0, s := Run(steps0), Run(steps);
            var n := Size(s0.writer.buffer);
            && s == s0.(writer := Copying(s0.writer.buffer, n), log := s.log)
            && (forall i | 0 <= i < TOTAL_LOGS && i != s0.wPos :: s.log[i] == s0.log[i])
            && (forall i | s0.writer.done <= i < n :: s.log[s0.wPos][i] == s0.writer.buffer[i])
            && (forall i | 0 <= i < s0.writer.done || n <= i < LOG_BYTES :: s.log[s0.wPos][i] == s0.log[s0.wPos][i])
    decreases Size(Run(steps0).writer.buffer) - Run(steps0).writer.done
  {
    hide Run;
    steps := steps0;
    if Run(steps0).writer.done < Size(Run(steps0).writer.buffer) {
      Extend(steps0, Copy);
      steps := CopyAll(steps0 + [Copy]);
    }
  }

  /** The reader has read one `A` of the message `AA` in slot 0, and `n` writes are done. */
  ghost predicate Racing(s: State, n: nat) {
    && Shaped(s) && s.writer.Free? && |s.written| == n && s.wPos == n % TOTAL_LOGS && s.prints == []
    && n > 0 && s.written[0] == [65, 65] && s.rPos == 0 && s.reader == Reading([65], 1)
  }

  /** `AA` is written, signalled, and its first byte read. */
  lemma FirstWrite() returns (steps: seq<Step>)
    ensures Racing(Run(steps), 1)
  {
    hide CStr, Run;
    var buffer: seq<byte> := [65, 65, 0];
    NothingRun();
    Extend([], Begin(buffer));
    steps := CopyAll([] + [Begin(buffer)]);
    var slot := Run(steps).log[0];
    assert slot[..3] == buffer[..3];
    Landed(slot, buffer);
    TwoAs();
    Extend(steps, Finish);
    steps := steps + [Finish];
    Extend(steps, Complete);
    steps := steps + [Complete];
    Extend(steps, Take);
    steps := steps + [Take];
    Extend(steps, Read);
    steps := steps + [Read];
  }

  lemma TwoAs()
    ensures Text([65, 65, 0]) == [65, 65]
  {
    var s: seq<byte> := [65, 65, 0];
    assert s[..2] == [65, 65];
  }

  lemma {:induction false} Race(n: nat) returns (steps: seq<Step>)
    requires 1 <= n <= TOTAL_LOGS
    ensures Racing(Run(steps), n)
  {
    hide CStr, Run;
    if n == 1 {
      steps := FirstWrite();
    } else {
      steps := Race(n - 1);
      Extend(steps, Begin([]));
      steps := steps + [Begin([])];
      Extend(steps, Finish);
      steps := steps + [Finish];
    }
  }

  /** While write 50 is under way the reader prints `AB`: the first byte of message
      0 and the second of the one that replaces it. */
  lemma Torn() returns (steps: seq<Step>)
    ensures var s := Run(steps);
            && Started(s) == TOTAL_LOGS + 1 && s.written[0] == [65, 65] && s.writer == Copying([66, 66, 0], 3)
            && |s.prints| == 1 && s.prints[0].text == [65, 66]
  {
    hide CStr, Run;
    steps := Race(TOTAL_LOGS);
    Extend(steps, Begin([66, 66, 0]));
    steps := CopyAll(steps + [Begin([66, 66, 0])]);
    Extend(steps, Read);
    steps := steps + [Read];
    Extend(steps, Read);
    steps := steps + [Read];
  }

  /** A lead of `lag` started writes keeps every print in order if and only if it
      is at most one ring. */
  lemma RingExact(lag: nat)
    ensures (forall steps: seq<Step> | NeverAhead(steps, lag) :: InOrder(Run(steps))) <==> lag <= TOTAL_LOGS
  {
    hide Run, InOrder;
    if lag <= TOTAL_LOGS {
      forall steps: seq<Step> | NeverAhead(steps, lag) ensures InOrder(Run(steps)) {
        PrintsInOrder(steps);
      }
    } else {
      var steps := Torn();
      forall n | 0 <= n <= |steps| ensures Started(Run(steps[..n])) <= |Run(steps[..n]).prints| + lag {
        StartedGrows(steps, n);
      }
      assert !InOrder(Run(steps)) by { NotInOrder(Run(steps)); }
    }
  }

  lemma NotInOrder(s: State)
    requires |s.prints| > 0 && |s.written| > 0 && s.prints[0].text != s.written[0]
    ensures !InOrder(s)
  {}
}
