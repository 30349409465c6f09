/** The GT801 work function: checksum gate, mask difference, coordinate decoding
    and multi-touch slot reports over the in-place finger queue. */
module FingerTracker {
  import opened Bits
  import opened PointQueue
  import opened PressOrder

  const FRAME: nat := 35
  const RESOLUTION_X := 1024
  const RESOLUTION_Y := 600
  const WORD32: nat := 0x1_0000_0000

  /** One run of the work function: a failed read, or the 35 bytes read. */
  datatype Frame = Lost | Read(data: seq<byte>)

  /** A multi-touch slot of the input device. */
  datatype Slot = Slot(active: bool, x: nat, y: nat)

  predicate WellFormed(f: Frame) { f.Read? ==> |f.data| == FRAME }

  function Sum(s: seq<byte>): nat {
    if s == [] then 0 else Sum(s[..|s| - 1]) + s[|s| - 1]
  }

  /** Position of the checksum byte, which depends on the fingers reported. */
  function CheckAt(mask: nat): nat { if mask <= 1 then 8 else if mask <= 3 then 13 else 34 }

  function MaskOf(data: seq<byte>): nat
    requires |data| == FRAME
  {
    data[1] % 32
  }

  predicate Accepted(f: Frame)
    requires WellFormed(f)
  {
    f.Read? && Sum(f.data[1..CheckAt(MaskOf(f.data))]) % 256 == f.data[CheckAt(MaskOf(f.data))]
  }

  /** First coordinate in the record of finger `num`; finger 3 has a record of its own shape. */
  function First(data: seq<byte>, num: nat): (r: nat)
    requires |data| == FRAME && num < FINGERS
    ensures r < 65536
  {
    if num == 3 then Be16(data[18], data[25])
    else if num == 4 then Be16(data[29], data[30])
    else Be16(data[5 * num + 3], data[5 * num + 4])
  }

  function Second(data: seq<byte>, num: nat): (r: nat)
    requires |data| == FRAME && num < FINGERS
    ensures r < 65536
  {
    if num == 3 then Be16(data[26], data[27])
    else if num == 4 then Be16(data[31], data[32])
    else Be16(data[5 * num + 5], data[5 * num + 6])
  }

  /** `limit - v` in unsigned 32-bit arithmetic when mirrored. */
  function Mirror(on: bool, limit: nat, v: nat): nat {
    if on then (limit - v) % WORD32 else v
  }

  /** What a pressed finger reports: the coordinates are swapped, then mirrored. */
  function Pressed(data: seq<byte>, num: nat, revert: bool): Slot
    requires |data| == FRAME && num < FINGERS
  {
    Slot(true, Mirror(revert, RESOLUTION_X, Second(data, num)), Mirror(revert, RESOLUTION_Y, First(data, num)))
  }

  // ---- the layout of the frame ----

  /** The bytes that hold the coordinates of finger `num`. */
  function Places(num: nat): seq<nat>
    requires num < FINGERS
  {
    [[3, 4, 5, 6], [8, 9, 10, 11], [13, 14, 15, 16], [18, 25, 26, 27], [29, 30, 31, 32]][num]
  }

  /** A frame that reports finger `num` at the raw coordinates `a` and `b`. */
  function Placed(data: seq<byte>, num: nat, a: nat, b: nat): (r: seq<byte>)
    requires |data| == FRAME && num < FINGERS && a < 65536 && b < 65536
    ensures |r| == FRAME
  {
    var p := Places(num);
    data[p[0] := a / 256][p[1] := a % 256][p[2] := b / 256][p[3] := b % 256]
  }

  /** What a frame says of one finger is what is reported of it, swapped and
      mirrored, and nothing of it is reported of another. */
  lemma RecordsApart(data: seq<byte>, num: nat, a: nat, b: nat, other: nat, revert: bool)
    requires |data| == FRAME && num < FINGERS && a < 65536 && b < 65536 && other < FINGERS
    ensures Pressed(Placed(data, num, a, b), num, revert) ==
            Slot(true, if revert then (1024 - b) % 0x1_0000_0000 else b,
                       if revert then (600 - a) % 0x1_0000_0000 else a)
    ensures other != num ==> Pressed(Placed(data, num, a, b), other, revert) == Pressed(data, other, revert)
  {
    var p, q := Places(num), Places(other);
    assert First(data, other) == Be16(data[q[0]], data[q[1]]) && Second(data, other) == Be16(data[q[2]], data[q[3]]);
  }

  /** Which fingers a frame reports: the low five bits of its byte 1. */
  lemma MaskBits(data: seq<byte>, n: nat)
    requires |data| == FRAME
    ensures Bit(MaskOf(data), n) <==> n < 5 && Bit(data[1], n)
  {
    hide Bit;
    LowIsMod(data[1], 5);
    LowBit(data[1], 5, n);
    assert Pow2(5) == 32;
  }

  lemma {:induction false} SumConcat(s: seq<byte>, t: seq<byte>)
    ensures Sum(s + t) == Sum(s) + Sum(t)
  {
    if t == [] {
      assert s + t == s;
    } else {
      assert (s + t)[..|s + t| - 1] == s + t[..|t| - 1];
      SumConcat(s, t[..|t| - 1]);
    }
  }

  lemma SumOne(b: byte)
    ensures Sum([b]) == b
  {
    assert [b][..0] == [];
  }

  /** Where the check byte of a frame with these fingers is, as the source's three cases say. */
  lemma AcceptedExactly(data: seq<byte>)
    requires |data| == FRAME
    ensures var mask := data[1] % 32;
            && (mask in {0, 1} ==> (Accepted(Read(data)) <==> Sum(data[1..8]) % 256 == data[8]))
            && (mask in {2, 3} ==> (Accepted(Read(data)) <==> Sum(data[1..13]) % 256 == data[13]))
            && (mask >= 4 ==> (Accepted(Read(data)) <==> Sum(data[1..34]) % 256 == data[34]))
  {
    hide Sum;
  }

  /** A frame that carries its sum is accepted. */
  lemma Sealed(data: seq<byte>)
    requires |data| == FRAME
    ensures var last := CheckAt(data[1] % 32);
            Accepted(Read(data[last := Sum(data[1..last]) % 256]))
  {
    hide Sum;
    var last := CheckAt(data[1] % 32);
    var r := data[last := Sum(data[1..last]) % 256];
    assert r[1..last] == data[1..last];
    AcceptedExactly(r);
  }

  /** A frame that was accepted is rejected once any one of the summed bytes is another,
      as long as its mask asks for the same stretch. */
  lemma Corrupted(data: seq<byte>, k: nat, b: byte)
    requires |data| == FRAME && Accepted(Read(data)) && 1 <= k < CheckAt(data[1] % 32) && b != data[k]
    requires CheckAt(data[k := b][1] % 32) == CheckAt(data[1] % 32)
    ensures !Accepted(Read(data[k := b]))
  {
    hide Sum;
    var last, r := CheckAt(data[1] % 32), data[k := b];
    var s, t := data[1..k], data[k + 1..last];
    assert data[1..last] == s + [data[k]] + t && r[1..last] == s + [b] + t;
    SumMoves(s, data[k], b, t);
  }

  /** Another byte moves the sum by the difference. */
  lemma SumMoves(s: seq<byte>, a: byte, b: byte, t: seq<byte>)
    ensures Sum(s + [b] + t) - Sum(s + [a] + t) == b as int - a as int
  {
    hide Sum;
    SumConcat(s + [a], t);
    SumConcat(s, [a]);
    SumConcat(s + [b], t);
    SumConcat(s, [b]);
    SumOne(a);
    SumOne(b);
  }

  function Nums(s: seq<Point>): (r: seq<nat>)
    ensures |r| == |s|
    ensures forall i | 0 <= i < |s| :: r[i] == s[i].num
  {
    seq(|s|, i requires 0 <= i < |s| => s[i].num)
  }

  ghost predicate Distinct(s: seq<Point>) {
    forall i, j | 0 <= i < j < |s| :: s[i].num != s[j].num
  }

  /** The masks of the accepted frames. */
  function Masks(frames: seq<Frame>): seq<nat>
    requires forall f | f in frames :: WellFormed(f)
  {
    if frames == [] then []
    else
      var last := frames[|frames| - 1];
      Masks(frames[..|frames| - 1]) + if Accepted(last) then [MaskOf(last.data)] else []
  }

  /** There are at most `m` distinct numbers below `m`. */
  lemma {:induction false} Pigeonhole(s: seq<Point>, m: nat)
    requires Distinct(s) && forall i | 0 <= i < |s| :: s[i].num < m
    ensures |s| <= m
  {
    if s != [] {
      assert 0 <= s[0].num < m;
      if k :| 0 <= k < |s| && s[k].num == m - 1 {
        var rest := s[..k] + s[k + 1..];
        assert forall i | 0 <= i < |rest| :: rest[i] == if i < k then s[i] else s[i + 1];
        Pigeonhole(rest, m - 1);
      } else {
        Pigeonhole(s, m - 1);
      }
    }
  }

  /** Distinct numbers below five, one of them missing, leave room for it. */
  lemma Room(s: seq<Point>, c: nat)
    requires Distinct(s) && c < FINGERS && forall i | 0 <= i < |s| :: s[i].num < FINGERS && s[i].num != c
    ensures |s| < FINGERS
  {
    Pigeonhole(s + [Point(c, FLAG_DOWN, 0, 0, 0)], FINGERS);
  }

  /** The queue half way through the mask-difference loop: the entries of `s`
      released below `c` are marked, the fingers pressed anew below `c` are appended. */
  ghost predicate Diffed(s: seq<Point>, live: seq<Point>, from: nat, mask: nat, c: nat) {
    && |s| <= |live|
    && (forall i | 0 <= i < |s| ::
          && live[i].num == s[i].num
          && live[i].state == if s[i].num < c && !Bit(mask, s[i].num) then FLAG_UP else FLAG_DOWN)
    && (forall i | |s| <= i < |live| :: live[i].state.FLAG_DOWN?)
    && Nums(live[|s|..]) == News(from, mask, c)
  }

  ghost predicate Tracks(s: seq<Point>, from: nat) {
    && Distinct(s)
    && (forall i | 0 <= i < |s| :: s[i].num < FINGERS)
    && (forall n: nat :: n in Nums(s) <==> n < FINGERS && Bit(from, n))
  }

  lemma {:induction false} DiffedKeep(s: seq<Point>, live: seq<Point>, mask: nat)
    requires |live| == |s| && forall i | 0 <= i < |s| ::
               live[i].num == s[i].num && live[i].state == if Bit(mask, s[i].num) then FLAG_DOWN else FLAG_UP
    ensures Nums(Downs(live)) == Keep(Nums(s), mask)
  {
    if s != [] {
      DiffedKeep(s[1..], live[1..], mask);
      assert Nums(s)[1..] == Nums(s[1..]);
      assert Nums(s)[0] == s[0].num == live[0].num;
      assert Nums([live[0]] + Downs(live[1..])) == [live[0].num] + Nums(Downs(live[1..]));
    }
  }

  /** What del_point leaves after the mask-difference loop. */
  lemma DiffedNext(s: seq<Point>, live: seq<Point>, from: nat, mask: nat)
    requires Tracks(s, from) && Diffed(s, live, from, mask, FINGERS)
    ensures Nums(Downs(live)) == Next(Nums(s), from, mask)
  {
    hide News, Bit, Keep, Downs;
    var a, b := live[..|s|], live[|s|..];
    assert live == a + b;
    DownsConcat(a, b);
    DownsAll(b);
    DiffedKeep(s, a, mask);
    assert Nums(Downs(a) + b) == Nums(Downs(a)) + Nums(b);
  }

  /** Reporting the entries one after the other. */
  function Report(slots: seq<Slot>, live: seq<Point>): (r: seq<Slot>)
    requires |slots| == FINGERS && forall i | 0 <= i < |live| :: live[i].num < FINGERS
    ensures |r| == FINGERS
  {
    if live == [] then slots
    else
      var before, p := Report(slots, live[..|live| - 1]), live[|live| - 1];
      before[p.num := if p.state.FLAG_DOWN? then Slot(true, p.x, p.y) else before[p.num].(active := false)]
  }

  lemma {:induction false} ReportAt(slots: seq<Slot>, live: seq<Point>, n: nat)
    requires |slots| == FINGERS && n < FINGERS && Distinct(live)
    requires forall i | 0 <= i < |live| :: live[i].num < FINGERS
    ensures n !in Nums(live) ==> Report(slots, live)[n] == slots[n]
    ensures forall i | 0 <= i < |live| && live[i].num == n ::
              if live[i].state.FLAG_DOWN? then Report(slots, live)[n] == Slot(true, live[i].x, live[i].y)
              else !Report(slots, live)[n].active
  {
    if live != [] {
      var init := live[..|live| - 1];
      ReportAt(slots, init, n);
      assert Nums(live) == Nums(init) + [live[|live| - 1].num];
    }
  }

  /** No finger at `c` or no change there: the loop has nothing to do. */
  lemma StepSame(s: seq<Point>, live: seq<Point>, from: nat, mask: nat, c: nat)
    requires Tracks(s, from) && Diffed(s, live, from, mask, c) && c < FINGERS && Bit(from, c) == Bit(mask, c)
    ensures Diffed(s, live, from, mask, c + 1)
  {
    forall i | 0 <= i < |s| && s[i].num == c ensures Bit(mask, s[i].num) {
      assert Nums(s)[i] == c;
    }
  }

  lemma StepUp(s: seq<Point>, live: seq<Point>, from: nat, mask: nat, c: nat, k: nat)
    requires Tracks(s, from) && Diffed(s, live, from, mask, c) && c < FINGERS && Bit(from, c) && !Bit(mask, c)
    requires k < |live| && live[k].num == c
    ensures Diffed(s, live[k := live[k].(state := FLAG_UP)], from, mask, c + 1)
  {
    hide Bit;
    NewsElements(from, mask, c);
    forall i | |s| <= i < |live| ensures !Bit(from, live[i].num) {
      assert Nums(live[|s|..])[i - |s|] in News(from, mask, c);
    }
    var after := live[k := live[k].(state := FLAG_UP)];
    assert after[|s|..] == live[|s|..];
  }

  lemma StepDown(s: seq<Point>, live: seq<Point>, from: nat, mask: nat, c: nat, p: Point)
    requires Tracks(s, from) && Diffed(s, live, from, mask, c) && c < FINGERS && !Bit(from, c) && Bit(mask, c)
    requires p.num == c && p.state.FLAG_DOWN?
    ensures Diffed(s, live + [p], from, mask, c + 1)
  {
    forall i | 0 <= i < |s| ensures s[i].num != c { assert Nums(s)[i] in Nums(s); }
    assert (live + [p])[|s|..] == live[|s|..] + [p];
    assert Nums(live[|s|..] + [p]) == Nums(live[|s|..]) + [c];
  }

  /** The loop stops early once no difference is left above `c`. */
  lemma {:induction false} NoMore(s: seq<Point>, live: seq<Point>, from: nat, mask: nat, c: nat)
    requires Tracks(s, from) && Diffed(s, live, from, mask, c) && c <= FINGERS
    requires forall i: nat | c <= i < FINGERS :: Bit(from, i) == Bit(mask, i)
    ensures Diffed(s, live, from, mask, FINGERS)
    decreases FINGERS - c
  {
    if c < FINGERS {
      StepSame(s, live, from, mask, c);
      NoMore(s, live, from, mask, c + 1);
    }
  }

  lemma {:induction false} NewsAscending(from: nat, mask: nat, c: nat)
    ensures forall i, j | 0 <= i < j < |News(from, mask, c)| :: News(from, mask, c)[i] < News(from, mask, c)[j] < c
    ensures forall n | n in News(from, mask, c) :: n < c
  {
    if c > 0 {
      NewsAscending(from, mask, c - 1);
      var shorter := News(from, mask, c - 1);
      assert forall i | 0 <= i < |shorter| :: shorter[i] in shorter;
    }
  }

  /** Throughout the loop the queue holds distinct fingers: those held before, and new ones below `c`. */
  lemma DiffedDistinct(s: seq<Point>, live: seq<Point>, from: nat, mask: nat, c: nat)
    requires Tracks(s, from) && Diffed(s, live, from, mask, c) && c <= FINGERS
    ensures Distinct(live) && forall i | 0 <= i < |live| :: live[i].num < FINGERS
    ensures forall i | 0 <= i < |live| :: live[i].num < c || Bit(from, live[i].num)
  {
    hide News, Bit;
    var news := News(from, mask, c);
    NewsAscending(from, mask, c);
    NewsElements(from, mask, c);
    forall i | |s| <= i < |live| ensures live[i].num == news[i - |s|] && live[i].num in news {
      assert Nums(live[|s|..])[i - |s|] == live[i].num;
    }
    forall i | 0 <= i < |s| ensures Bit(from, live[i].num) && live[i].num < FINGERS {
      assert Nums(s)[i] == live[i].num;
    }
  }

  lemma {:induction false} DownsMembers(s: seq<Point>)
    ensures forall p :: p in Downs(s) <==> p in s && p.state.FLAG_DOWN?
  {
    if s != [] {
      DownsMembers(s[1..]);
      assert forall p :: p in s <==> p == s[0] || p in s[1..];
    }
  }

  lemma {:induction false} DownsDistinct(s: seq<Point>)
    requires Distinct(s)
    ensures Distinct(Downs(s))
  {
    if s != [] {
      DownsDistinct(s[1..]);
      DownsMembers(s[1..]);
      var rest := Downs(s[1..]);
      forall i | 0 <= i < |rest| ensures rest[i].num != s[0].num {
        assert rest[i] in s[1..];
      }
    }
  }

  /** After del_point the queue tracks the new mask. */
  lemma Retracked(s: seq<Point>, live: seq<Point>, from: nat, mask: nat)
    requires Tracks(s, from) && Diffed(s, live, from, mask, FINGERS)
    ensures Tracks(Downs(live), mask)
  {
    hide News, Bit, Downs, Keep;
    DiffedDistinct(s, live, from, mask, FINGERS);
    DownsMembers(live);
    DownsDistinct(live);
    DiffedNext(s, live, from, mask);
    NextElements(Nums(s), from, mask);
    forall i | 0 <= i < |Downs(live)| ensures Downs(live)[i].num < FINGERS {
      assert Downs(live)[i] in live;
    }
  }

  /** Where finger `n` stands in the queue after the difference loop. */
  lemma Standing(s: seq<Point>, live: seq<Point>, from: nat, mask: nat, n: nat)
    requires Tracks(s, from) && Diffed(s, live, from, mask, FINGERS) && n < FINGERS
    ensures Bit(mask, n) ==> exists i :: 0 <= i < |live| && live[i].num == n && live[i].state.FLAG_DOWN?
    ensures !Bit(mask, n) && n in Nums(live) ==>
              exists i :: 0 <= i < |live| && live[i].num == n && live[i].state.FLAG_UP?
    ensures !Bit(mask, n) && n !in Nums(live) ==> !Bit(from, n)
  {
    hide News, Bit;
    var news := News(from, mask, FINGERS);
    NewsElements(from, mask, FINGERS);
    assert Nums(live) == Nums(s) + news;
    if n in Nums(s) {
      var i :| 0 <= i < |s| && Nums(s)[i] == n;
      assert live[i].num == n && Nums(live)[i] == n;
    } else if n in news {
      var j :| 0 <= j < |news| && news[j] == n;
      assert Nums(live[|s|..])[j] == live[|s| + j].num == n;
    }
  }

  /** Decoding of one entry: a released finger is zeroed, a pressed one takes its own record. */
  method DecodeOne(data: seq<byte>, p: Point, revert: bool) returns (q: Point)
    requires |data| == FRAME && p.num < FINGERS
    ensures q.num == p.num && q.state == p.state
    ensures p.state.FLAG_DOWN? ==> Slot(true, q.x, q.y) == Pressed(data, p.num, revert)
    ensures p.state.FLAG_DOWN? ==> q.pressure == data[[7, 12, 17, 28, 33][p.num]]
    ensures p.state.FLAG_UP? ==> q.x == q.y == q.pressure == 0
  {
    hide First, Second;
    if p.state.FLAG_UP? { return p.(x := 0, y := 0, pressure := 0); }
    var x, y, pressure := RawRecord(data, p.num);
    x, y := y, x;
    if revert { x, y := (RESOLUTION_X - x) % WORD32, (RESOLUTION_Y - y) % WORD32; }
    q := p.(x := x, y := y, pressure := pressure);
  }

  /** The record of a finger: fingers 0 to 2 and 4 have five bytes in a row, finger 3 is scattered. */
  method RawRecord(data: seq<byte>, num: nat) returns (x: nat, y: nat, pressure: nat)
    requires |data| == FRAME && num < FINGERS
    ensures x == First(data, num) && y == Second(data, num)
    ensures pressure == data[[7, 12, 17, 28, 33][num]]
  {
    var position := 0;
    if num < 3 { position := num * 5 + 3; } else if num == 4 { position := 29; }
    if num != 3 {
      x, y := Be16(data[position], data[position + 1]), Be16(data[position + 2], data[position + 3]);
      pressure := data[position + 4];
    } else {
      x, y, pressure := Be16(data[18], data[25]), Be16(data[26], data[27]), data[28];
    }
  }

  class Tracker {
    const queue: Queue       // finger_list
    var fingerBit: nat       // finger_bit: the mask of the last accepted frame
    var slots: seq<Slot>     // the input device's view

    ghost predicate Valid()
      reads this, queue, queue.pointer
    {
      && queue.Valid() && |slots| == FINGERS && fingerBit < 32
      && (forall p | p in queue.Live() :: p.state.FLAG_DOWN?)
      && Tracks(queue.Live(), fingerBit)
      && (forall n: nat | n < FINGERS :: slots[n].active == Bit(fingerBit, n))
    }

    constructor ()
      ensures Valid() && fresh(queue) && fresh(queue.pointer) && fingerBit == 0 && queue.Live() == []
    {
      queue := new Queue();
      fingerBit := 0;
      slots := seq(FINGERS, _ => Slot(false, 0, 0));
      forall n: nat ensures !Bit(0, n) { ZeroBit(n); }
    }

    /** The loop that turns the changed bits into presses and releases. */
    method Diff(mask: nat)
      requires Valid()
      modifies queue, queue.pointer
      ensures queue.Valid() && Diffed(old(queue.Live()), queue.Live(), fingerBit, mask, FINGERS)
    {
      hide Bit, Diffed, Tracks, Zip, Shr;
      ghost var s := queue.Live();
      var changed := Zip(Xor, fingerBit, mask, 8);
      var finger, count := changed, 0;
      DiffedStart(s, fingerBit, mask);
      assert finger == Shr(changed, 0) by { ShrZero(changed); }
      while finger != 0 && count < MAX_FINGER_NUM
        invariant 0 <= count <= MAX_FINGER_NUM && queue.Valid() && finger == Shr(changed, count)
        invariant Diffed(s, queue.Live(), fingerBit, mask, count)
        decreases MAX_FINGER_NUM - count
      {
        ChangedBit(fingerBit, mask, count, 0);
        if finger % 2 == 1 {
          if Bit(fingerBit, count) { Release(count, mask, s); } else { Press(count, mask, s); }
        } else {
          StepSame(s, queue.Live(), fingerBit, mask, count);
        }
        ShrStep(changed, count);
        finger, count := finger / 2, count + 1;
      }
      forall i: nat | count <= i < FINGERS ensures Bit(fingerBit, i) == Bit(mask, i) {
        ChangedBit(fingerBit, mask, count, i - count);
        ZeroBit(i - count);
      }
      NoMore(s, queue.Live(), fingerBit, mask, count);
    }

    /** A finger went up: set_up_point finds its entry. */
    method Release(count: nat, mask: nat, ghost s: seq<Point>)
      requires queue.Valid() && count < FINGERS && Bit(fingerBit, count) && !Bit(mask, count)
      requires Tracks(s, fingerBit) && Diffed(s, queue.Live(), fingerBit, mask, count)
      modifies queue.pointer
      ensures queue.Valid() && Diffed(s, queue.Live(), fingerBit, mask, count + 1)
    {
      hide Bit, Diffed, Tracks;
      ghost var live := queue.Live();
      Member(s, live, fingerBit, mask, count);
      var ret, k := queue.SetUpPoint(count);
      StepUp(s, live, fingerBit, mask, count, k);
    }

    /** A finger went down: add_point never refuses it. */
    method Press(count: nat, mask: nat, ghost s: seq<Point>)
      requires queue.Valid() && count < FINGERS && !Bit(fingerBit, count) && Bit(mask, count)
      requires Tracks(s, fingerBit) && Diffed(s, queue.Live(), fingerBit, mask, count)
      modifies queue`length, queue.pointer
      ensures queue.Valid() && Diffed(s, queue.Live(), fingerBit, mask, count + 1)
    {
      hide Bit, Diffed, Tracks;
      ghost var live := queue.Live();
      DiffedDistinct(s, live, fingerBit, mask, count);
      Room(live, count);
      var ret := queue.AddPoint(count);
      assert ret == 0;
      assert queue.Live() == live + [queue.Live()[|live|]];
      StepDown(s, live, fingerBit, mask, count, queue.Live()[|live|]);
    }

    /** BIT_NO_CHANGE: decode the record of every entry, in place. */
    method Decode(data: seq<byte>, revert: bool)
      requires queue.Valid() && |data| == FRAME && forall i | 0 <= i < queue.length :: queue.pointer[i].num < FINGERS
      modifies queue.pointer
      ensures queue.Valid()
      ensures forall i | 0 <= i < queue.length ::
                && queue.pointer[i].num == old(queue.pointer[i].num)
                && queue.pointer[i].state == old(queue.pointer[i].state)
                && (queue.pointer[i].state.FLAG_DOWN? ==>
                      Slot(true, queue.pointer[i].x, queue.pointer[i].y) == Pressed(data, queue.pointer[i].num, revert))
    {
      hide Pressed;
      var count := 0;
      var pointer := queue.pointer;
      while count < queue.length
        invariant 0 <= count <= queue.length
        invariant forall i | 0 <= i < queue.length ::
                    pointer[i].num == old(pointer[i].num) && pointer[i].state == old(pointer[i].state)
        invariant forall i | 0 <= i < count && pointer[i].state.FLAG_DOWN? ::
                    Slot(true, pointer[i].x, pointer[i].y) == Pressed(data, pointer[i].num, revert)
      {
        var q := DecodeOne(data, pointer[count], revert);
        pointer[count] := q;
        count := count + 1;
      }
    }

    /** The slot reports, entry by entry. */
    method ReportSlots()
      requires queue.Valid() && |slots| == FINGERS
      requires forall i | 0 <= i < |queue.Live()| :: queue.Live()[i].num < FINGERS
      modifies this`slots
      ensures slots == Report(old(slots), queue.Live())
    {
      var count := 0;
      ghost var live := queue.Live();
      while count < queue.length
        invariant 0 <= count <= queue.length && |slots| == FINGERS && live == queue.Live()
        invariant slots == Report(old(slots), live[..count])
      {
        var p := queue.pointer[count];
        assert live[count] == p && live[..count + 1][..count] == live[..count];
        if p.state.FLAG_DOWN? {
          slots := slots[p.num := Slot(true, p.x, p.y)];
        } else {
          slots := slots[p.num := slots[p.num].(active := false)];
        }
        count := count + 1;
      }
      assert live[..count] == live;
    }

    /** goodix_ts_work_func for one interrupt, accepted or not. */
    method WorkFunc(f: Frame, revert: bool)
      requires Valid() && WellFormed(f)
      modifies this`fingerBit, this`slots, queue, queue.pointer
      ensures Valid()
      ensures !Accepted(f) ==>
                fingerBit == old(fingerBit) && slots == old(slots) && queue.Live() == old(queue.Live())
      ensures Accepted(f) ==>
                && fingerBit == MaskOf(f.data)
                && Nums(queue.Live()) == Next(old(Nums(queue.Live())), old(fingerBit), MaskOf(f.data))
                && forall n: nat | n < FINGERS && Bit(MaskOf(f.data), n) :: slots[n] == Pressed(f.data, n, revert)
    {
      hide Bit, News, Downs, Keep, Sum, Pressed, Report;
      if f.Lost? { return; }
      var data := f.data;
      var ok := Checksum(data);
      if !ok { return; }
      var mask := MaskOf(data);
      ghost var s, from := queue.Live(), fingerBit;
      var finger := Zip(Xor, fingerBit, mask, 8);
      if finger == 0 { SameMask(fingerBit, mask, s); }
      if finger == 0 && mask == 0 {
        XorZero(fingerBit, mask);
        DiffedNext(s, s, from, mask);
        DownsAll(s);
        forall n: nat ensures !Bit(0, n) { ZeroBit(n); }
        return;
      }
      if finger != 0 { Diff(mask); }
      Track(data, mask, revert, s);
    }

    /** BIT_NO_CHANGE to the end: decode, report, drop the released, remember the mask. */
    method Track(data: seq<byte>, mask: nat, revert: bool, ghost s: seq<Point>)
      requires |data| == FRAME && |slots| == FINGERS && mask < 32 && queue.Valid()
      requires Tracks(s, fingerBit) && Diffed(s, queue.Live(), fingerBit, mask, FINGERS)
      requires forall n: nat | n < FINGERS :: slots[n].active == Bit(fingerBit, n)
      modifies this`fingerBit, this`slots, queue, queue.pointer
      ensures Valid() && fingerBit == mask
      ensures Nums(queue.Live()) == Next(Nums(s), old(fingerBit), mask)
      ensures forall n: nat | n < FINGERS && Bit(mask, n) :: slots[n] == Pressed(data, n, revert)
    {
      hide Bit, Next, Downs, Pressed, Report, Diffed, Tracks;
      ghost var live, from, before := queue.Live(), fingerBit, slots;
      DiffedDistinct(s, live, from, mask, FINGERS);
      Decode(data, revert);
      ghost var decoded := queue.Live();
      Redecoded(s, live, decoded, from, mask);
      ReportSlots();
      Reported(s, decoded, from, mask, before, data, revert);
      queue.DelPoint();
      fingerBit := mask;
      DownsMembers(decoded);
      Retracked(s, decoded, from, mask);
      DiffedNext(s, decoded, from, mask);
    }
  }

  lemma Redecoded(s: seq<Point>, live: seq<Point>, decoded: seq<Point>, from: nat, mask: nat)
    requires Tracks(s, from) && Diffed(s, live, from, mask, FINGERS) && |decoded| == |live|
    requires forall i | 0 <= i < |live| :: decoded[i].num == live[i].num && decoded[i].state == live[i].state
    ensures Diffed(s, decoded, from, mask, FINGERS)
    ensures Distinct(decoded) && forall i | 0 <= i < |decoded| :: decoded[i].num < FINGERS
  {
    hide Bit, News;
    assert Nums(decoded[|s|..]) == Nums(live[|s|..]);
    DiffedDistinct(s, decoded, from, mask, FINGERS);
  }

  /** After the reports the active slots are the fingers of the mask, each with its own record. */
  lemma Reported(
    s: seq<Point>, live: seq<Point>, from: nat, mask: nat, before: seq<Slot>, data: seq<byte>, revert: bool)
    requires Tracks(s, from) && Diffed(s, live, from, mask, FINGERS) && Distinct(live)
    requires |data| == FRAME && |before| == FINGERS && forall i | 0 <= i < |live| :: live[i].num < FINGERS
    requires forall n: nat | n < FINGERS :: before[n].active == Bit(from, n)
    requires forall i | 0 <= i < |live| && live[i].state.FLAG_DOWN? ::
               Slot(true, live[i].x, live[i].y) == Pressed(data, live[i].num, revert)
    ensures forall n: nat | n < FINGERS ::
              && Report(before, live)[n].active == Bit(mask, n)
              && (Bit(mask, n) ==> Report(before, live)[n] == Pressed(data, n, revert))
  {
    hide Bit, News, Report;
    forall n: nat | n < FINGERS
      ensures Report(before, live)[n].active == Bit(mask, n)
      ensures Bit(mask, n) ==> Report(before, live)[n] == Pressed(data, n, revert)
    {
      Standing(s, live, from, mask, n);
      ReportAt(before, live, n);
    }
  }

  lemma OneMore(frames: seq<Frame>, f: Frame)
    requires WellFormed(f) && forall g | g in frames :: WellFormed(g)
    ensures var h, h' := Masks(frames), Masks(frames + [f]);
            if Accepted(f) then Held(h') == MaskOf(f.data) && Order(h') == Next(Order(h), Held(h), MaskOf(f.data))
            else h' == h
  {
    hide Next, Bit, Sum;
    var h := Masks(frames);
    assert (frames + [f])[..|frames|] == frames;
    if Accepted(f) { assert (h + [MaskOf(f.data)])[..|h|] == h; }
  }

  lemma Initially()
    ensures Masks([]) == [] && Held([]) == 0 && Order([]) == []
  {}

  /** The number of frames up to the last accepted one. */
  function Newest(frames: seq<Frame>): (n: nat)
    requires forall f | f in frames :: WellFormed(f)
    ensures n <= |frames| && (n > 0 ==> frames[n - 1].Read? && Accepted(frames[n - 1]))
    ensures forall i | n <= i < |frames| :: !Accepted(frames[i])
  {
    if frames == [] then 0
    else if Accepted(frames[|frames| - 1]) then |frames|
    else Newest(frames[..|frames| - 1])
  }

  /** The slots are exactly the fingers of frame `n - 1`, each with its own record; with no frame, none. */
  ghost predicate Shows(slots: seq<Slot>, frames: seq<Frame>, reverts: seq<bool>, n: nat)
    requires n <= |frames| == |reverts| && |slots| == FINGERS
    requires n > 0 ==> frames[n - 1].Read? && WellFormed(frames[n - 1])
  {
    forall i: nat | i < FINGERS ::
      if n == 0 then !slots[i].active
      else
        var data := frames[n - 1].data;
        slots[i].active == Bit(MaskOf(data), i) && (slots[i].active ==> slots[i] == Pressed(data, i, reverts[n - 1]))
  }

  lemma NewestSnoc(frames: seq<Frame>, i: nat)
    requires i < |frames| && forall f | f in frames :: WellFormed(f)
    ensures Newest(frames[..i + 1]) == if Accepted(frames[i]) then i + 1 else Newest(frames[..i])
  {
    hide Accepted;
    assert frames[..i + 1][..i] == frames[..i];
  }

  /** A whole run from the initial state: whatever frames arrive, the slots are
      those of the last accepted frame, the queue is a function of the accepted
      masks alone, and it is in order of pressing. */
  method Run(frames: seq<Frame>, reverts: seq<bool>) returns (t: Tracker)
    requires |reverts| == |frames| && forall f | f in frames :: WellFormed(f)
    ensures fresh(t) && t.Valid() && t.fingerBit == Held(Masks(frames))
    ensures Shows(t.slots, frames, reverts, Newest(frames))
    ensures Nums(t.queue.Live()) == Order(Masks(frames))
    ensures Chronological(Masks(frames), Nums(t.queue.Live()))
  {
    hide Bit, Next, Chronological, Masks, Order, Held, Newest, Accepted, Pressed;
    t := new Tracker();
    var i := 0;
    Initially();
    forall n: nat ensures !Bit(0, n) { ZeroBit(n); }
    assert frames[..i] == [];
    while i < |frames|
      invariant 0 <= i <= |frames| && fresh(t) && fresh(t.queue) && fresh(t.queue.pointer) && t.Valid()
      invariant t.fingerBit == Held(Masks(frames[..i])) && Nums(t.queue.Live()) == Order(Masks(frames[..i]))
      invariant Newest(frames[..i]) <= i && Shows(t.slots, frames, reverts, Newest(frames[..i]))
    {
      NewestSnoc(frames, i);
      t.WorkFunc(frames[i], reverts[i]);
      assert frames[..i + 1] == frames[..i] + [frames[i]];
      OneMore(frames[..i], frames[i]);
      i := i + 1;
    }
    assert frames[..i] == frames;
    OrderIsChronological(Masks(frames));
  }

  /** The checksum gate. */
  method Checksum(data: seq<byte>) returns (ok: bool)
    requires |data| == FRAME
    ensures ok == Accepted(Read(data))
  {
    var last := CheckAt(data[1] % 32);
    var sum: nat, count := 0, 1;
    while count < last
      invariant 1 <= count <= last && sum == Sum(data[1..count])
    {
      assert data[1..count + 1][..count - 1] == data[1..count];
      sum := sum + data[count];
      count := count + 1;
    }
    ok := sum % 256 == data[last];
  }

  /** Without a difference the frame leaves the queue as the difference loop would. */
  lemma SameMask(from: nat, mask: nat, s: seq<Point>)
    requires Zip(Xor, from, mask, 8) == 0 && Tracks(s, from) && forall p | p in s :: p.state.FLAG_DOWN?
    ensures Diffed(s, s, from, mask, FINGERS)
  {
    hide Bit, News;
    forall i: nat | i < FINGERS ensures Bit(from, i) == Bit(mask, i) {
      ZipBit(Xor, from, mask, 8, i);
      ZeroBit(i);
    }
    DiffedStart(s, from, mask);
    NoMore(s, s, from, mask, 0);
  }

  lemma XorZero(a: nat, b: nat)
    requires a < 256 && b < 256 && Zip(Xor, a, b, 8) == 0
    ensures a == b
  {
    forall i: nat | i < 8 ensures Bit(a, i) == Bit(b, i) {
      ZipBit(Xor, a, b, 8, i);
      ZeroBit(i);
    }
    assert Pow2(8) == 256;
    Extensional(a, b, 8);
  }

  lemma ShrZero(a: nat)
    ensures Shr(a, 0) == a
  {}

  lemma DiffedStart(s: seq<Point>, from: nat, mask: nat)
    requires forall p | p in s :: p.state.FLAG_DOWN?
    ensures Diffed(s, s, from, mask, 0)
  {
    assert forall i | 0 <= i < |s| :: s[i] in s;
  }

  /** Bit `i` of the shifted difference compares bit `c + i` of the two masks. */
  lemma ChangedBit(a: nat, b: nat, c: nat, i: nat)
    requires c + i < 8
    ensures Bit(Shr(Zip(Xor, a, b, 8), c), i) == (Bit(a, c + i) != Bit(b, c + i))
    ensures i == 0 ==> (Shr(Zip(Xor, a, b, 8), c) % 2 == 1) == (Bit(a, c) != Bit(b, c))
  {
    hide Zip;
    ShrBit(Zip(Xor, a, b, 8), c, i);
    ZipBit(Xor, a, b, 8, c + i);
  }

  /** A finger held before is still in the queue while the loop runs. */
  lemma Member(s: seq<Point>, live: seq<Point>, from: nat, mask: nat, n: nat)
    requires Tracks(s, from) && Diffed(s, live, from, mask, n) && n < FINGERS && Bit(from, n)
    ensures exists p :: p in live && p.num == n
  {
    assert n in Nums(s);
    var i :| 0 <= i < |s| && Nums(s)[i] == n;
    assert live[i] in live;
  }
}
