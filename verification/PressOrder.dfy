/** What the GT801 finger queue means, without the queue: the history of
    accepted finger masks, and the order in which the fingers held were pressed. */
module PressOrder {
  import opened Bits

  const FINGERS: nat := 5

  /** The fingers below `c` that `mask` presses anew, ascending. */
  function News(from: nat, mask: nat, c: nat): seq<nat> {
    if c == 0 then []
    else News(from, mask, c - 1) + if Bit(mask, c - 1) && !Bit(from, c - 1) then [c - 1] else []
  }

  /** The fingers of `order` still pressed, in the same order. */
  function Keep(order: seq<nat>, mask: nat): seq<nat> {
    if order == [] then []
    else (if Bit(mask, order[0]) then [order[0]] else []) + Keep(order[1..], mask)
  }

  /** The effect of one frame: survivors first, then the new fingers. */
  function Next(order: seq<nat>, from: nat, mask: nat): seq<nat> {
    Keep(order, mask) + News(from, mask, FINGERS)
  }

  /** The mask in force after a history of accepted masks. */
  function Held(history: seq<nat>): nat {
    if history == [] then 0 else history[|history| - 1]
  }

  /** The queue after a history, frame by frame. */
  function Order(history: seq<nat>): seq<nat> {
    if history == [] then []
    else
      var before := history[..|history| - 1];
      Next(Order(before), Held(before), Held(history))
  }

  /** The frame in which the press that still holds finger `n` began. */
  function Since(history: seq<nat>, n: nat): (r: nat)
    requires Bit(Held(history), n)
    ensures r < |history|
  {
    ZeroBit(n);
    var before := history[..|history| - 1];
    if Bit(Held(before), n) then Since(before, n) else |before|
  }

  lemma {:induction false} KeepElements(order: seq<nat>, mask: nat)
    ensures forall n: nat :: n in Keep(order, mask) <==> n in order && Bit(mask, n)
  {
    if order != [] { KeepElements(order[1..], mask); }
  }

  lemma {:induction false} NewsElements(from: nat, mask: nat, c: nat)
    ensures forall n: nat :: n in News(from, mask, c) <==> n < c && Bit(mask, n) && !Bit(from, n)
  {
    if c > 0 { NewsElements(from, mask, c - 1); }
  }

  lemma NextElements(order: seq<nat>, from: nat, mask: nat)
    ensures forall n: nat :: n in Next(order, from, mask) <==>
              (n in order && Bit(mask, n)) || (n < FINGERS && Bit(mask, n) && !Bit(from, n))
  {
    KeepElements(order, mask);
    NewsElements(from, mask, FINGERS);
  }

  /** Every history: the queue holds exactly the fingers of the last mask. */
  lemma {:induction false} OrderIsHeld(history: seq<nat>)
    ensures forall n: nat :: n in Order(history) <==> n < FINGERS && Bit(Held(history), n)
  {
    if history == [] {
      forall n: nat ensures !Bit(0, n) { ZeroBit(n); }
    } else {
      var before := history[..|history| - 1];
      OrderIsHeld(before);
      NextElements(Order(before), Held(before), Held(history));
    }
  }

  /** `a` was pressed before `b`, or in the same frame with the smaller number. */
  predicate Earlier(history: seq<nat>, a: nat, b: nat)
    requires Bit(Held(history), a) && Bit(Held(history), b)
  {
    Since(history, a) < Since(history, b) || (Since(history, a) == Since(history, b) && a < b)
  }

  ghost predicate Chronological(history: seq<nat>, s: seq<nat>) {
    && (forall i | 0 <= i < |s| :: Bit(Held(history), s[i]))
    && (forall i, j | 0 <= i < j < |s| :: Earlier(history, s[i], s[j]))
  }

  /** Every history: the queue is sorted by the time the fingers were pressed. */
  lemma {:induction false} OrderIsChronological(history: seq<nat>)
    ensures Chronological(history, Order(history))
  {
    if history != [] {
      var before, mask := history[..|history| - 1], Held(history);
      OrderIsChronological(before);
      OrderIsHeld(before);
      KeepChronological(history, Order(before));
      NewsChronological(history, FINGERS);
      var kept, news := Keep(Order(before), mask), News(Held(before), mask, FINGERS);
      KeepElements(Order(before), mask);
      NewsElements(Held(before), mask, FINGERS);
      forall i, j | 0 <= i < |kept| && 0 <= j < |news| ensures Earlier(history, kept[i], news[j]) {
        assert kept[i] in kept && news[j] in news;
        assert Since(history, kept[i]) < |before| == Since(history, news[j]);
      }
    }
  }

  lemma {:induction false} KeepChronological(history: seq<nat>, s: seq<nat>)
    requires history != [] && Chronological(history[..|history| - 1], s)
    ensures Chronological(history, Keep(s, Held(history)))
    ensures forall n | n in Keep(s, Held(history)) :: n in s
  {
    if s != [] {
      var before := history[..|history| - 1];
      assert forall i | 0 <= i < |s| - 1 :: s[1..][i] == s[i + 1];
      KeepChronological(history, s[1..]);
      var rest := Keep(s[1..], Held(history));
      if Bit(Held(history), s[0]) {
        forall j | 0 <= j < |rest| ensures Earlier(history, s[0], rest[j]) {
          assert rest[j] in s[1..];
          var k :| 0 <= k < |s[1..]| && s[1..][k] == rest[j];
          assert Earlier(before, s[0], s[k + 1]);
        }
      }
    }
  }

  lemma {:induction false} NewsChronological(history: seq<nat>, c: nat)
    requires history != []
    ensures Chronological(history, News(Held(history[..|history| - 1]), Held(history), c))
  {
    if c > 0 {
      NewsChronological(history, c - 1);
      NewsElements(Held(history[..|history| - 1]), Held(history), c - 1);
      var shorter := News(Held(history[..|history| - 1]), Held(history), c - 1);
      assert forall i | 0 <= i < |shorter| :: shorter[i] in shorter;
    }
  }
}
