/** The in-place finger queue of goodix_queue1.h: an array of five entries of
    which the first `length` are live, in the order the fingers were pressed. */
module PointQueue {
  import opened Bits

  const MAX_FINGER_NUM: nat := 5

  datatype Flag = FLAG_UP | FLAG_DOWN
  datatype Point = Point(num: byte, state: Flag, pressure: nat, x: nat, y: nat)

  /** The entries still down, in order. */
  function Downs(s: seq<Point>): seq<Point> {
    if s == [] then []
    else (if s[0].state.FLAG_DOWN? then [s[0]] else []) + Downs(s[1..])
  }

  lemma {:induction false} DownsConcat(a: seq<Point>, b: seq<Point>)
    ensures Downs(a + b) == Downs(a) + Downs(b)
  {
    if a == [] {
      assert a + b == b;
    } else {
      assert (a + b)[1..] == a[1..] + b;
      DownsConcat(a[1..], b);
    }
  }

  lemma {:induction false} DownsAll(s: seq<Point>)
    requires forall p | p in s :: p.state.FLAG_DOWN?
    ensures Downs(s) == s
  {
    if s != [] { DownsAll(s[1..]); }
  }

  lemma DelStart(s: seq<Point>)
    ensures s == s[..|s|] + Downs(s[|s|..])
  {}

  /** One step of the backward walk of del_point. */
  lemma DelStep(s: seq<Point>, live: seq<Point>, count: nat)
    requires count < |s| && live == s[..count + 1] + Downs(s[count + 1..])
    ensures live[count] == s[count]
    ensures (if s[count].state.FLAG_UP? then live[..count] + live[count + 1..] else live)
         == s[..count] + Downs(s[count..])
  {
    assert s[count..][1..] == s[count + 1..];
  }

  class Queue {
    var length: int
    const pointer: array<Point>

    ghost predicate Valid()
      reads this
    {
      pointer.Length == MAX_FINGER_NUM && 0 <= length <= MAX_FINGER_NUM
    }

    ghost function Live(): seq<Point>
      requires Valid()
      reads this, pointer
    {
      pointer[..length]
    }

    constructor ()
      ensures Valid() && fresh(pointer) && Live() == []
    {
      length := 0;
      pointer := new Point[MAX_FINGER_NUM](_ => Point(0, FLAG_UP, 0, 0, 0));
    }

    /** del_point: an in-place, order-preserving filter on the state. */
    method DelPoint()
      requires Valid()
      modifies this`length, pointer
      ensures Valid() && Live() == Downs(old(Live()))
    {
      hide Downs;
      var count := length - 1;
      ghost var s := Live();
      DelStart(s);
      while count >= 0
        invariant -1 <= count < |s| && Valid()
        invariant Live() == s[..count + 1] + Downs(s[count + 1..])
        decreases count
      {
        DelStep(s, Live(), count);
        if pointer[count].state.FLAG_UP? {
          RemoveAt(count);
        }
        count := count - 1;
      }
      assert s[0..] == s;
    }

    /** The inner loop of del_point: everything behind `at` moves one place forward. */
    method RemoveAt(at: nat)
      requires Valid() && at < length
      modifies this`length, pointer
      ensures Valid() && Live() == old(Live())[..at] + old(Live())[at + 1..]
    {
      var position := at;
      while position < MAX_FINGER_NUM - 1
        invariant at <= position <= MAX_FINGER_NUM - 1 && length == old(length)
        invariant forall i | 0 <= i < at :: pointer[i] == old(pointer[i])
        invariant forall i | at <= i < position :: pointer[i] == old(pointer[i + 1])
        invariant forall i | position <= i < MAX_FINGER_NUM :: pointer[i] == old(pointer[i])
      {
        pointer[position] := pointer[position + 1];
        position := position + 1;
      }
      length := length - 1;
    }

    /** add_point: refused when the queue is full. */
    method AddPoint(num: int) returns (ret: int)
      requires Valid()
      modifies this`length, pointer
      ensures Valid()
      ensures old(length) >= MAX_FINGER_NUM || num < 0 ==> ret == -1 && Live() == old(Live())
      ensures old(length) < MAX_FINGER_NUM && 0 <= num ==>
                && ret == 0 && |Live()| == old(length) + 1 && Live()[..old(length)] == old(Live())
                && Live()[old(length)].num == num % 256 && Live()[old(length)].state.FLAG_DOWN?
    {
      if length >= MAX_FINGER_NUM || num < 0 { return -1; }
      pointer[length] := pointer[length].(num := num % 256, state := FLAG_DOWN);
      length := length + 1;
      return 0;
    }

    /** search_point: the first live entry with this number. */
    method SearchPoint(num: int) returns (k: int)
      requires Valid()
      ensures k == -1 || (0 <= k < length && pointer[k].num == num && forall i | 0 <= i < k :: pointer[i].num != num)
      ensures k == -1 ==> num > MAX_FINGER_NUM || forall p | p in Live() :: p.num != num
    {
      if length <= 0 || num < 0 || num > MAX_FINGER_NUM { return -1; }
      var count := 0;
      while count < length
        invariant 0 <= count <= length && forall i | 0 <= i < count :: pointer[i].num != num
      {
        if pointer[count].num == num { return count; }
        count := count + 1;
      }
      return -1;
    }

    /** set_up_point.  The source tests `num` where it should test the index it
        found, so a call that passes the guard must name a live finger: otherwise
        it writes in front of the array. */
    method SetUpPoint(num: int) returns (ret: int, ghost k: int)
      requires Valid()
      requires length <= 0 || num < 0 || num > MAX_FINGER_NUM || exists p :: p in Live() && p.num == num
      modifies pointer
      ensures Valid()
      ensures old(length) <= 0 || num < 0 || num > MAX_FINGER_NUM ==> ret == -1 && Live() == old(Live())
      ensures !(old(length) <= 0 || num < 0 || num > MAX_FINGER_NUM) ==>
                && ret == 0 && 0 <= k < length && old(Live())[k].num == num
                && Live() == old(Live())[k := old(Live())[k].(state := FLAG_UP)]
    {
      k := -1;
      if length <= 0 || num < 0 || num > MAX_FINGER_NUM { return -1, k; }
      var number := SearchPoint(num);
      if num >= 0 {
        k := number;
        pointer[number] := pointer[number].(state := FLAG_UP);
        return 0, k;
      }
      return -1, k;
    }
  }
}
