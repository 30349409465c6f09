/** The GT911 slot report: a bit set of touch ids that grows while it is walked,
    one record of the frame being consumed for every id met. */
module SlotWalk {
  import opened Bits

  const MAX_TOUCH: nat := 5
  const POINT_DATA: nat := 44
  const RECORD: nat := 8

  /** A slot of the input device, with the coordinates reported last. */
  datatype Slot = Slot(active: bool, x: int, y: int, w: int)

  const SCREEN_X := 1024
  const SCREEN_Y := 600

  /** xy_revert_en and ts_should_revert. */
  datatype Screen = Screen(swap: bool, mirror: bool)

  /** The two variables as each slot is reported; other threads may set them meanwhile. */
  type Screens = s: seq<Screen> | |s| == MAX_TOUCH witness seq(MAX_TOUCH, _ => Screen(false, false))

  /** One interrupt: whether the read succeeded, and point_data after it. */
  datatype Frame = Frame(ok: bool, data: seq<byte>)

  predicate WellFormed(f: Frame) { |f.data| == POINT_DATA }

  function TouchNum(data: seq<byte>): nat
    requires |data| == POINT_DATA
  {
    data[2] % 16
  }

  /** The frame gets as far as the slot branch. */
  predicate Accepted(f: Frame)
    requires WellFormed(f)
  {
    f.ok && f.data[2] >= 0x80 && TouchNum(f.data) <= MAX_TOUCH
  }

  /** The id byte of record `k`; record touch_num is the byte behind the last record. */
  function Id(data: seq<byte>, k: nat): nat
    requires |data| == POINT_DATA && k <= MAX_TOUCH
  {
    data[3 + RECORD * k] % 16
  }

  function Ids(data: seq<byte>): (r: seq<nat>)
    requires |data| == POINT_DATA
    ensures |r| == MAX_TOUCH + 1 && forall k: nat | k <= MAX_TOUCH :: r[k] == Id(data, k)
  {
    seq(MAX_TOUCH + 1, k requires 0 <= k <= MAX_TOUCH => Id(data, k))
  }

  /** Length of the longest strictly ascending prefix of ids below five. */
  function Ascent(ids: seq<nat>, floor: int): (n: nat)
    ensures n <= |ids|
  {
    if ids == [] || ids[0] <= floor || ids[0] >= MAX_TOUCH then 0 else 1 + Ascent(ids[1..], ids[0])
  }

  lemma {:induction false} AscentIs(ids: seq<nat>, floor: int)
    ensures var n := Ascent(ids, floor);
            && (forall j | 0 <= j < n :: floor < ids[j] < MAX_TOUCH)
            && (forall i, j | 0 <= i < j < n :: ids[i] < ids[j])
            && (n < |ids| ==> ids[n] >= MAX_TOUCH || ids[n] <= (if n == 0 then floor else ids[n - 1]))
  {
    if Ascent(ids, floor) > 0 {
      AscentIs(ids[1..], ids[0]);
      assert forall j | 0 < j < |ids| :: ids[j] == ids[1..][j - 1];
    }
  }

  /** The ids the walk reports as touched. */
  function Walked(data: seq<byte>): nat
    requires |data| == POINT_DATA
  {
    if TouchNum(data) == 0 then 0 else Ascent(Ids(data), -1)
  }

  predicate Touched(data: seq<byte>, i: nat)
    requires |data| == POINT_DATA
  {
    i in Ids(data)[..Walked(data)]
  }

  function Le16(lo: int, hi: int): int { lo + 256 * hi }

  /** What gtp_touch_down reports for record `k`. */
  function RecordOf(data: seq<byte>, k: nat, s: Screen): (r: Slot)
    requires |data| == POINT_DATA && k < MAX_TOUCH
    ensures r.active
  {
    var p := 3 + RECORD * k;
    var x, y := Le16(data[p + 1], data[p + 2]), Le16(data[p + 3], data[p + 4]);
    var x', y' := if s.swap then y else x, if s.swap then x else y;
    Slot(true, if s.mirror then SCREEN_X - x' else x', if s.mirror then SCREEN_Y - y' else y',
         Le16(data[p + 5], data[p + 6]))
  }

  // ---- the layout of the frame ----

  /** A frame whose record `k` reports touch `id` at `x`, `y` with weight `w`, each low byte first. */
  function Placed(data: seq<byte>, k: nat, id: nat, x: nat, y: nat, w: nat): (r: seq<byte>)
    requires |data| == POINT_DATA && k < MAX_TOUCH && id < 16 && x < 65536 && y < 65536 && w < 65536
    ensures |r| == POINT_DATA
  {
    var p := 3 + 8 * k;
    data[..p] + [id, x % 256, x / 256, y % 256, y / 256, w % 256, w / 256] + data[p + 7..]
  }

  /** What a record says is what is reported, swapped and then mirrored on a screen of
      1024 by 600; the other records are untouched. */
  lemma RecordsApart(data: seq<byte>, k: nat, id: nat, x: nat, y: nat, w: nat, other: nat, s: Screen)
    requires |data| == POINT_DATA && k < MAX_TOUCH && id < 16 && x < 65536 && y < 65536 && w < 65536
    requires other < MAX_TOUCH
    ensures var r := Placed(data, k, id, x, y, w);
            && Ids(r)[k] == id
            && (other != k ==> Ids(r)[other] == Ids(data)[other] && RecordOf(r, other, s) == RecordOf(data, other, s))
            && RecordOf(r, k, Screen(false, false)) == Slot(true, x, y, w)
            && RecordOf(r, k, Screen(true, false)) == Slot(true, y, x, w)
            && RecordOf(r, k, Screen(false, true)) == Slot(true, 1024 - x, 600 - y, w)
            && RecordOf(r, k, Screen(true, true)) == Slot(true, 1024 - y, 600 - x, w)
  {
    var r := Placed(data, k, id, x, y, w);
    assert forall i | 0 <= i < POINT_DATA && !(3 + 8 * k <= i < 3 + 8 * k + 7) :: r[i] == data[i];
  }

  /** The gates in the bits of the status byte: bit 7 is set, and the low four bits count at most five touches. */
  lemma AcceptedExactly(f: Frame)
    requires WellFormed(f)
    ensures Accepted(f) <==> f.ok && Bit(f.data[2], 7) && Zip(And, f.data[2], 0x0F, 8) <= 5
  {
    hide Bit, Low, Shr, Zip;
    var d := f.data[2];
    assert Pow2(4) == 16 && Pow2(7) == 128 && Pow2(8) == 256;
    forall i: nat | i < 8 ensures Bit(Zip(And, d, 0x0F, 8), i) == Bit(Low(d, 4), i) {
      ZipBit(And, d, 0x0F, 8, i);
      OnesBit(4, i);
      LowBit(d, 4, i);
    }
    ZipBound(And, d, 0x0F, 8);
    Split(d, 4);
    Extensional(Zip(And, d, 0x0F, 8), Low(d, 4), 8);
    LowIsMod(d, 4);
    TopBit(d);
  }

  lemma TopBit(d: byte)
    ensures Bit(d, 7) <==> d >= 0x80
  {
    hide Low, Shr;
    assert Pow2(7) == 128;
    ShrBit(d, 7, 0);
    Split(d, 7);
    assert Shr(d, 7) in {0, 1};
  }

  function SetBit(m: nat, i: nat): nat { Zip(Or, m, Shl(1, i), 16) }

  function ClearBit(m: nat, i: nat): nat { Zip(AndNot, m, Shl(1, i), 16) }

  lemma OneBit(i: nat, b: nat)
    ensures Bit(Shl(1, i), b) == (b == i)
  {
    hide Shl;
    ShlBit(1, i, b);
    if i < b { HighBit(1, 1, b - i); }
  }

  lemma SetClear(m: nat, i: nat, b: nat)
    requires b < 16
    ensures Bit(SetBit(m, i), b) == (b == i || Bit(m, b))
    ensures Bit(ClearBit(m, i), b) == (b != i && Bit(m, b))
  {
    hide Zip, Shl;
    OneBit(i, b);
    ZipBit(Or, m, Shl(1, i), 16, b);
    ZipBit(AndNot, m, Shl(1, i), 16, b);
  }

  /** The records of the frame ascend below five, and the byte behind them does not continue the ascent. */
  predicate Orderly(data: seq<byte>, n: nat)
    requires |data| == POINT_DATA && 1 <= n <= MAX_TOUCH
  {
    && (forall j | 0 <= j < n :: Ids(data)[j] < MAX_TOUCH)
    && (forall i, j | 0 <= i < j < n :: Ids(data)[i] < Ids(data)[j])
    && (Ids(data)[n] >= MAX_TOUCH || Ids(data)[n] <= Ids(data)[n - 1])
  }

  /** The walk reports exactly the first `n` records if and only if they are orderly;
      with touch_num for `n`, that is all records of the frame and nothing else. */
  lemma AllReported(data: seq<byte>, n: nat)
    requires |data| == POINT_DATA && TouchNum(data) > 0 && 1 <= n <= MAX_TOUCH
    ensures Walked(data) == n <==> Orderly(data, n)
  {
    hide Ascent, Id;
    var ids, r := Ids(data), Walked(data);
    AscentIs(ids, -1);
    assert r > n ==> ids[n - 1] < ids[n] < MAX_TOUCH;
    assert 0 < r < n ==> ids[r] >= MAX_TOUCH || ids[r] <= ids[r - 1];
  }

  /** The first `r` records are orderly, and the rest of the frame repeats their ids. */
  predicate Covering(data: seq<byte>, n: nat, r: nat)
    requires |data| == POINT_DATA && 1 <= r <= n <= MAX_TOUCH
  {
    Orderly(data, r) && forall j | r <= j < n :: Ids(data)[j] in Ids(data)[..r]
  }

  /** For every frame: the touched slots are exactly the frame's ids if and only if
      orderly records come first and the others repeat them; for distinct ids, if
      and only if the whole frame is orderly. */
  lemma WalkFaithful(data: seq<byte>, n: nat)
    requires |data| == POINT_DATA && n == TouchNum(data) <= MAX_TOUCH
    ensures (forall i: nat :: Touched(data, i) <==> i in Ids(data)[..n]) <==>
            n == 0 || exists r: nat :: 1 <= r <= n && Covering(data, n, r)
    ensures n > 0 && (forall i, j | 0 <= i < j < n :: Ids(data)[i] != Ids(data)[j]) ==>
              ((forall i: nat :: Touched(data, i) <==> i in Ids(data)[..n]) <==> Orderly(data, n))
  {
    hide Ascent, Id, Orderly;
    var ids, r := Ids(data), Walked(data);
    AscentIs(ids, -1);
    if n > 0 {
      forall k | 1 <= k <= n ensures r == k <==> Orderly(data, k) { AllReported(data, k); }
      if r > n {
        BeyondFrame(ids, n, r);
        assert Touched(data, ids[n]);
      } else {
        SameIds(ids, n, r);
        assert 1 <= r ==> (Covering(data, n, r) <==> forall j | r <= j < n :: ids[j] in ids[..r]);
      }
    }
  }

  /** A run that reads on beyond the frame meets an id that is not the frame's. */
  lemma BeyondFrame(ids: seq<nat>, n: nat, r: nat)
    requires n < r <= |ids| && forall i, j | 0 <= i < j < r :: ids[i] < ids[j]
    ensures ids[n] in ids[..r] && ids[n] !in ids[..n]
  {
    assert ids[..r][n] == ids[n];
  }

  /** A shorter run has the frame's ids exactly when the rest repeats them. */
  lemma SameIds(ids: seq<nat>, n: nat, r: nat)
    requires r <= n <= |ids|
    ensures (forall i: nat :: i in ids[..r] <==> i in ids[..n]) <==> forall j | r <= j < n :: ids[j] in ids[..r]
  {
    forall j | 0 <= j < n ensures ids[j] in ids[..n] { assert ids[..n][j] == ids[j]; }
    forall j | 0 <= j < r ensures ids[j] in ids[..r] { assert ids[..r][j] == ids[j]; }
  }

  /** Where the walk stands before slot `i`: `k` records consumed, and of the ids
      not yet passed only the pending one is in the set. */
  ghost predicate Standing(ids: seq<nat>, n: nat, r: nat, i: nat, k: nat, touchIndex: nat) {
    && |ids| == MAX_TOUCH + 1 && r == (if n == 0 then 0 else Ascent(ids, -1)) && k <= r && k <= i <= MAX_TOUCH
    && (forall j | 0 <= j < k :: ids[j] < i)
    && (k < r ==> ids[k] >= i)
    && (forall b: nat | i <= b < 16 :: Bit(touchIndex, b) == (n > 0 && b == ids[k]))
  }

  lemma StandingStart(ids: seq<nat>, n: nat)
    requires |ids| == MAX_TOUCH + 1
    ensures Standing(ids, n, if n == 0 then 0 else Ascent(ids, -1), 0, 0, if n == 0 then 0 else SetBit(0, ids[0]))
  {
    hide Bit, SetBit;
    var first, m := ids[0], if n == 0 then 0 else SetBit(0, ids[0]);
    forall b: nat | b < 16 ensures Bit(m, b) == (n > 0 && b == first) {
      ZeroBit(b);
      SetClear(0, ids[0], b);
    }
  }

  /** An id met in the set is the pending one, its record is one the walk reports,
      and the next id joins the set. */
  lemma StandingDown(ids: seq<nat>, n: nat, r: nat, i: nat, k: nat, touchIndex: nat)
    requires Standing(ids, n, r, i, k, touchIndex) && i < MAX_TOUCH && Bit(touchIndex, i)
    ensures n > 0 && k < r && ids[k] == i && k < MAX_TOUCH
    ensures Standing(ids, n, r, i + 1, k + 1, SetBit(touchIndex, ids[k + 1]))
  {
    hide Bit, SetBit;
    AscentIs(ids, -1);
    var pending := ids[k + 1];
    var m := SetBit(touchIndex, pending);
    forall b: nat | i < b < 16 ensures Bit(m, b) == (b == pending) {
      SetClear(touchIndex, pending, b);
    }
  }

  lemma StandingUp(ids: seq<nat>, n: nat, r: nat, i: nat, k: nat, touchIndex: nat)
    requires Standing(ids, n, r, i, k, touchIndex) && i < MAX_TOUCH && !Bit(touchIndex, i)
    ensures Standing(ids, n, r, i + 1, k, touchIndex) && i !in ids[..k]
  {}

  lemma StandingEnd(ids: seq<nat>, n: nat, r: nat, k: nat, touchIndex: nat)
    requires Standing(ids, n, r, MAX_TOUCH, k, touchIndex)
    ensures k == r
  {
    AscentIs(ids, -1);
  }

  /** The active slots are those the walk reports, and each has the record of its id. */
  ghost predicate Shows(slots: seq<Slot>, data: seq<byte>, screens: Screens)
    requires |slots| == MAX_TOUCH && |data| == POINT_DATA
  {
    && (forall i: nat | i < MAX_TOUCH :: slots[i].active == Touched(data, i))
    && (forall k: nat | k < Walked(data) ::
          k < MAX_TOUCH && Ids(data)[k] < MAX_TOUCH && slots[Ids(data)[k]] == RecordOf(data, k, screens[Ids(data)[k]]))
  }

  lemma ShowsNothing(slots: seq<Slot>, data: seq<byte>, screens: Screens)
    requires |slots| == MAX_TOUCH && |data| == POINT_DATA && TouchNum(data) == 0
    requires forall i: nat | i < MAX_TOUCH :: !slots[i].active
    ensures Shows(slots, data, screens)
  {}

  /** The slots below `i` are reported, with the first `k` records. */
  ghost predicate Partly(slots: seq<Slot>, data: seq<byte>, screens: Screens, i: nat, k: nat) {
    && |slots| == MAX_TOUCH && |data| == POINT_DATA && k <= i <= MAX_TOUCH
    && (forall s: nat | s < i :: slots[s].active == (s in Ids(data)[..k]))
    && (forall j: nat | j < k :: Ids(data)[j] < i && slots[Ids(data)[j]] == RecordOf(data, j, screens[Ids(data)[j]]))
  }

  lemma PartlyStart(slots: seq<Slot>, data: seq<byte>, screens: Screens)
    requires |slots| == MAX_TOUCH && |data| == POINT_DATA
    ensures Partly(slots, data, screens, 0, 0)
  {}

  lemma PartlyDown(slots: seq<Slot>, data: seq<byte>, screens: Screens, i: nat, k: nat)
    requires Partly(slots, data, screens, i, k) && i < MAX_TOUCH && Ids(data)[k] == i
    ensures Partly(slots[i := RecordOf(data, k, screens[i])], data, screens, i + 1, k + 1)
  {
    hide RecordOf, Id;
    assert Ids(data)[..k + 1] == Ids(data)[..k] + [i];
  }

  lemma PartlyUp(slots: seq<Slot>, data: seq<byte>, screens: Screens, i: nat, k: nat)
    requires Partly(slots, data, screens, i, k) && i < MAX_TOUCH && i !in Ids(data)[..k]
    ensures Partly(slots[i := slots[i].(active := false)], data, screens, i + 1, k)
  {
    hide RecordOf, Id;
  }

  lemma PartlyEnd(slots: seq<Slot>, data: seq<byte>, screens: Screens)
    requires |data| == POINT_DATA && Partly(slots, data, screens, MAX_TOUCH, Walked(data))
    ensures Shows(slots, data, screens)
  {
    hide RecordOf, Id, Ascent;
  }

  class Tracker {
    var preTouch: nat
    var slots: seq<Slot>

    ghost predicate Valid()
      reads this
    {
      && preTouch < Pow2(16) && |slots| == MAX_TOUCH
      && (forall b: nat | b < 16 :: Bit(preTouch, b) == (b < MAX_TOUCH && slots[b].active))
    }

    constructor ()
      ensures Valid() && preTouch == 0
    {
      preTouch := 0;
      slots := seq(MAX_TOUCH, _ => Slot(false, 0, 0, 0));
      forall b: nat ensures !Bit(0, b) { ZeroBit(b); }
    }

    /** gtp_touch_down. */
    method TouchDown(id: nat, x0: int, y0: int, w: int, screen: Screen)
      requires |slots| == MAX_TOUCH && id < MAX_TOUCH
      modifies this`slots
      ensures var x, y := if screen.swap then y0 else x0, if screen.swap then x0 else y0;
              slots == old(slots)[id := Slot(true, if screen.mirror then SCREEN_X - x else x,
                                                   if screen.mirror then SCREEN_Y - y else y, w)]
    {
      var x, y := x0, y0;
      if screen.swap { x, y := y, x; }
      if screen.mirror { x, y := SCREEN_X - x, SCREEN_Y - y; }
      slots := slots[id := Slot(true, x, y, w)];
    }

    /** gtp_touch_up. */
    method TouchUp(id: nat)
      requires |slots| == MAX_TOUCH && id < MAX_TOUCH
      modifies this`slots
      ensures slots == old(slots)[id := old(slots)[id].(active := false)]
    {
      slots := slots[id := slots[id].(active := false)];
    }

    /** One touched slot: report its record and mark it. */
    method Down(i: nat, data: seq<byte>, pos: nat, id: nat, screen: Screen)
      requires Valid() && |data| == POINT_DATA && i < MAX_TOUCH && id == i
      requires pos % RECORD == 0 && pos / RECORD < MAX_TOUCH
      modifies this`preTouch, this`slots
      ensures Valid() && slots == old(slots)[i := RecordOf(data, pos / RECORD, screen)]
    {
      hide Bit, Pow2, SetBit;
      var x, y := Le16(data[3 + pos + 1], data[3 + pos + 2]), Le16(data[3 + pos + 3], data[3 + pos + 4]);
      TouchDown(id, x, y, Le16(data[3 + pos + 5], data[3 + pos + 6]), screen);
      Marks(preTouch, i);
      preTouch := SetBit(preTouch, i);
    }

    method Up(i: nat)
      requires Valid() && i < MAX_TOUCH
      modifies this`preTouch, this`slots
      ensures Valid() && slots == old(slots)[i := old(slots)[i].(active := false)]
    {
      hide Bit, Pow2, ClearBit;
      TouchUp(i);
      Marks(preTouch, i);
      preTouch := ClearBit(preTouch, i);
    }

    /** The slot branch: five slots, at most five records, never beyond the buffer. */
    method Walk(data: seq<byte>, screens: Screens)
      requires Valid() && |data| == POINT_DATA && TouchNum(data) <= MAX_TOUCH
      modifies this`preTouch, this`slots
      ensures Valid()
      ensures Shows(slots, data, screens)
    {
      hide Bit, Ascent, Standing, RecordOf, SetBit, Pow2, Id, Partly, Shows;
      var n := TouchNum(data);
      ghost var ids, r := Ids(data), Walked(data);
      var pos, touchIndex, id := 0, 0, 0;
      if n > 0 {
        id := data[3 + pos] % 16;
        touchIndex := SetBit(touchIndex, id);
      }
      IdAt(data, 0);
      StandingStart(ids, n);
      PartlyStart(slots, data, screens);
      ghost var k := 0;
      var i := 0;
      while i < MAX_TOUCH
        invariant 0 <= i <= MAX_TOUCH && Valid() && Standing(ids, n, r, i, k, touchIndex)
        invariant k <= i && pos == RECORD * k && (n > 0 ==> id == ids[k])
        invariant Partly(slots, data, screens, i, k)
      {
        if Bit(touchIndex, i) {
          StandingDown(ids, n, r, i, k, touchIndex);
          PartlyDown(slots, data, screens, i, k);
          Down(i, data, pos, id, screens[i]);
          pos := pos + RECORD;
          id := data[3 + pos] % 16;
          IdAt(data, k + 1);
          touchIndex := SetBit(touchIndex, id);
          k := k + 1;
        } else {
          StandingUp(ids, n, r, i, k, touchIndex);
          PartlyUp(slots, data, screens, i, k);
          Up(i);
        }
        i := i + 1;
      }
      StandingEnd(ids, n, r, k, touchIndex);
      PartlyEnd(slots, data, screens);
    }

    /** goodix_ts_work_func for one interrupt. */
    method WorkFunc(f: Frame, screens: Screens)
      requires Valid() && WellFormed(f)
      modifies this`preTouch, this`slots
      ensures Valid()
      ensures !Accepted(f) ==> slots == old(slots) && preTouch == old(preTouch)
      ensures Accepted(f) ==> Shows(slots, f.data, screens)
    {
      hide Bit, Pow2, Shows;
      if !f.ok { return; }
      var finger := f.data[2];
      if finger < 0x80 { return; } // finger & 0x80
      var touchNum := finger % 16;
      if touchNum > MAX_TOUCH { return; }
      if preTouch != 0 || touchNum != 0 {
        Walk(f.data, screens);
      } else {
        forall b: nat ensures !Bit(0, b) { ZeroBit(b); }
        ShowsNothing(slots, f.data, screens);
      }
    }
  }

  lemma IdAt(data: seq<byte>, k: nat)
    requires |data| == POINT_DATA && k <= MAX_TOUCH
    ensures Ids(data)[k] == data[3 + RECORD * k] % 16
  {}

  lemma Marks(m: nat, i: nat)
    ensures SetBit(m, i) < Pow2(16) && ClearBit(m, i) < Pow2(16)
    ensures forall b: nat | b < 16 :: Bit(SetBit(m, i), b) == (b == i || Bit(m, b))
    ensures forall b: nat | b < 16 :: Bit(ClearBit(m, i), b) == (b != i && Bit(m, b))
  {
    hide Bit, Zip, Shl, Pow2;
    ZipBound(Or, m, Shl(1, i), 16);
    ZipBound(AndNot, m, Shl(1, i), 16);
    forall b: nat | b < 16
      ensures Bit(SetBit(m, i), b) == (b == i || Bit(m, b)) && Bit(ClearBit(m, i), b) == (b != i && Bit(m, b))
    {
      SetClear(m, i, b);
    }
  }

  /** The number of frames up to the last accepted one. */
  function Newest(frames: seq<Frame>): (n: nat)
    requires forall f | f in frames :: WellFormed(f)
    ensures n <= |frames| && (n > 0 ==> WellFormed(frames[n - 1]) && Accepted(frames[n - 1]))
    ensures forall i | n <= i < |frames| :: !Accepted(frames[i])
  {
    if frames == [] then 0
    else if Accepted(frames[|frames| - 1]) then |frames|
    else Newest(frames[..|frames| - 1])
  }

  /** Any run: the slots are those of the last accepted frame, whatever came before. */
  method Run(frames: seq<Frame>, screens: seq<Screens>) returns (t: Tracker)
    requires |screens| == |frames| && forall f | f in frames :: WellFormed(f)
    ensures fresh(t) && t.Valid()
    ensures var n := Newest(frames);
            if n == 0 then forall i: nat | i < MAX_TOUCH :: !t.slots[i].active
            else Shows(t.slots, frames[n - 1].data, screens[n - 1])
  {
    hide Bit, Shows, Pow2, Accepted;
    t := new Tracker();
    forall b: nat ensures !Bit(0, b) { ZeroBit(b); }
    var i := 0;
    while i < |frames|
      invariant 0 <= i <= |frames| && fresh(t) && t.Valid() && Newest(frames[..i]) <= i
      invariant var n := Newest(frames[..i]);
                if n == 0 then forall s: nat | s < MAX_TOUCH :: !t.slots[s].active
                else Shows(t.slots, frames[n - 1].data, screens[n - 1])
    {
      t.WorkFunc(frames[i], screens[i]);
      assert frames[..i + 1][..i] == frames[..i];
      i := i + 1;
    }
    assert frames[..i] == frames;
  }
}
