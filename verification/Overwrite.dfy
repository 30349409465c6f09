/** Overwriting part of a memory image, and how such writes compose. */
module Overwrite {
  /** `s` with the bytes of `d` stored from offset `o` on. */
  function Splice<T>(s: seq<T>, o: nat, d: seq<T>): (r: seq<T>)
    requires o + |d| <= |s|
    ensures |r| == |s|
  {
    s[..o] + d + s[o + |d|..]
  }

  /** Two consecutive writes are one write of the concatenation. */
  lemma Consecutive<T>(s: seq<T>, o: nat, a: seq<T>, b: seq<T>)
    requires o + |a| + |b| <= |s|
    ensures Splice(Splice(s, o, a), o + |a|, b) == Splice(s, o, a + b)
  {
    var l, r := Splice(Splice(s, o, a), o + |a|, b), Splice(s, o, a + b);
    assert forall i | 0 <= i < |s| :: l[i] == r[i];
  }

  lemma Glue<T>(s: seq<T>, a: nat, b: nat, c: nat)
    requires a <= b <= c <= |s|
    ensures s[a..c] == s[a..b] + s[b..c]
  {}

  lemma Assoc<T>(a: seq<T>, b: seq<T>, c: seq<T>)
    ensures a + b + c == a + (b + c)
  {}
}
