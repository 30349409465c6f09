/** The flashless firmware burner of the Goodix GT910: chunked I2C transfers
    with nested retries, banked SRAM, read-back verification, outer retries. */
module FirmwareBurner {
  import opened Bits
  import opened Overwrite

  const ADDR_LENGTH: nat := 2
  const PACK_SIZE: nat := 1024
  const HEAD_LENGTH: nat := 14
  const SECTION: nat := 0x2000
  const DSP_LENGTH: nat := 0x1000
  const BANK_SIZE: nat := 0x4000
  const SRAM: nat := 0xC000
  const SPACE: nat := 0x10000
  const BANK_REG: nat := 0x4048
  const IMAGE_LENGTH: nat := 36878 // the header, four sections and the DSP code

  datatype Status = FAIL | SUCCESS
  datatype Mode = Burn | EsdRecovery

  /** What the bus does to one transfer.  `Garbled` is an acknowledged write of
      which the chip latched other bytes; `Failed` broke off after `n` payload
      bytes and is reported by `code`.  Reads deliver what the chip holds. */
  datatype Outcome = Done | Garbled(noise: seq<byte>) | Failed(n: nat, code: int)

  /** The chip: registers below 0xC000 and, above, the window onto the SRAM bank
      that the register 0x4048 selects. */
  datatype Chip = Chip(regs: seq<byte>, sram: seq<seq<byte>>) {
    ghost predicate Valid() {
      |regs| == SRAM && |sram| == 256 && forall b | 0 <= b < 256 :: |sram[b]| == BANK_SIZE
    }

    function Bank(): byte
      requires Valid()
    {
      regs[BANK_REG]
    }

    function View(): (v: seq<byte>)
      requires Valid()
      ensures |v| == SPACE
    {
      regs + sram[Bank()]
    }

    /** One write message: the bank in force is the one selected before it. */
    function Store(addr: nat, d: seq<byte>): (c: Chip)
      requires Valid() && addr + |d| <= SPACE
      ensures c.Valid()
    {
      var v := Splice(View(), addr, d);
      Chip(v[..SRAM], sram[Bank() := v[SRAM..]])
    }
  }

  /** The bank register is outside the range. */
  predicate Steady(addr: nat, n: nat) {
    addr + n <= SPACE && !(addr <= BANK_REG < addr + n)
  }

  /** At most the visible cells of the range differ. */
  ghost predicate Within(c: Chip, c': Chip, addr: nat, n: nat) {
    && c.Valid() && c'.Valid() && c'.Bank() == c.Bank()
    && (forall b | 0 <= b < 256 && b != c.Bank() :: c'.sram[b] == c.sram[b])
    && (forall i | 0 <= i < SPACE && !(addr <= i < addr + n) :: c'.View()[i] == c.View()[i])
  }

  lemma WithinSelf(c: Chip, addr: nat, n: nat)
    requires c.Valid()
    ensures Within(c, c, addr, n)
  {}

  lemma WithinTrans(c: Chip, c': Chip, c'': Chip, addr: nat, n: nat, addr': nat, n': nat)
    requires Within(c, c', addr, n) && Within(c', c'', addr', n')
    requires addr <= addr' && addr' + n' <= addr + n
    ensures Within(c, c'', addr, n)
  {}

  lemma StoreView(c: Chip, addr: nat, d: seq<byte>)
    requires c.Valid() && Steady(addr, |d|)
    ensures c.Store(addr, d).Bank() == c.Bank()
    ensures c.Store(addr, d).View() == Splice(c.View(), addr, d)
    ensures Within(c, c.Store(addr, d), addr, |d|)
  {
    var v := Splice(c.View(), addr, d);
    assert v[BANK_REG] == c.View()[BANK_REG];
    assert v == v[..SRAM] + v[SRAM..];
  }

  lemma SameChip(c: Chip, c': Chip)
    requires c.Valid() && c'.Valid() && c.View() == c'.View()
    requires c.Bank() == c'.Bank()
    requires forall b | 0 <= b < 256 && b != c.Bank() :: c'.sram[b] == c.sram[b]
    ensures c == c'
  {
    assert c.regs == c.View()[..SRAM] && c'.regs == c'.View()[..SRAM];
    assert c.sram[c.Bank()] == c.View()[SRAM..] && c'.sram[c.Bank()] == c'.View()[SRAM..];
    assert c.sram == c'.sram;
  }

  /** Rewriting a range erases whatever earlier attempts left in it. */
  lemma StoreOver(c: Chip, c': Chip, addr: nat, d: seq<byte>)
    requires Steady(addr, |d|) && Within(c, c', addr, |d|)
    ensures c'.Store(addr, d) == c.Store(addr, d)
  {
    StoreView(c, addr, d);
    StoreView(c', addr, d);
    var l, r := Splice(c.View(), addr, d), Splice(c'.View(), addr, d);
    assert forall i | 0 <= i < SPACE :: l[i] == r[i];
    assert l == r;
    SameChip(c'.Store(addr, d), c.Store(addr, d));
  }

  /** Chunked stores are one flat store. */
  lemma StoreChunks(c: Chip, addr: nat, d: seq<byte>, e: seq<byte>)
    requires c.Valid() && Steady(addr, |d|) && Steady(addr + |d|, |e|) && Steady(addr, |d| + |e|)
    ensures c.Store(addr, d).Store(addr + |d|, e) == c.Store(addr, d + e)
  {
    var m := c.Store(addr, d);
    StoreView(c, addr, d);
    StoreView(m, addr + |d|, e);
    StoreView(c, addr, d + e);
    Consecutive(c.View(), addr, d, e);
    SameChip(m.Store(addr + |d|, e), c.Store(addr, d + e));
  }

  lemma StoreNothing(c: Chip, addr: nat)
    requires c.Valid() && addr <= SPACE
    ensures c.Store(addr, []) == c
  {
    StoreView(c, addr, []);
    assert Splice(c.View(), addr, []) == c.View();
    SameChip(c.Store(addr, []), c);
  }

  function Chunks(n: nat): nat { (n + PACK_SIZE - 1) / PACK_SIZE }

  /** The bytes of the payload `d` that the chip latches. */
  function Latched(o: Outcome, d: seq<byte>): (r: seq<byte>)
    ensures |r| <= |d|
  {
    match o
    case Done => d
    case Garbled(noise) => if |noise| >= |d| then noise[..|d|] else noise + d[|noise|..]
    case Failed(n, _) => if n < |d| then d[..n] else d
  }

  /** The header of a message is its big-endian address. */
  function AddrOf(msg: seq<byte>): nat
    requires |msg| >= ADDR_LENGTH
  {
    Be16(msg[0], msg[1])
  }

  datatype Attempt = Attempt(chip: Chip, ok: bool, clock: nat)

  /** Attempts at storing `d` at `addr`, by the transfers numbered `t` to `end - 1` at most. */
  function Tries(script: nat -> Outcome, t: nat, end: nat, c: Chip, addr: nat, d: seq<byte>): (r: Attempt)
    requires t <= end && c.Valid() && addr + |d| <= SPACE
    ensures r.chip.Valid() && t <= r.clock <= end && (r.ok || r.clock == end)
    decreases end - t
  {
    if t == end then Attempt(c, false, t)
    else
      var c' := c.Store(addr, Latched(script(t), d));
      if script(t).Failed? then Tries(script, t + 1, end, c', addr, d) else Attempt(c', true, t + 1)
  }

  /** No transfer of the window is acknowledged but stored as something else. */
  ghost predicate Faithful(script: nat -> Outcome, from: nat, to: nat) {
    forall t: nat | from <= t < to :: !script(t).Garbled?
  }

  /** From `from` on the bus is perfect. */
  ghost predicate Clean(script: nat -> Outcome, from: nat) {
    forall t: nat | from <= t :: script(t).Done?
  }

  /** The transfers of the window break off before their first payload byte. */
  ghost predicate Dead(script: nat -> Outcome, from: nat, to: nat) {
    forall t: nat | from <= t < to :: script(t).Failed? && script(t).n == 0
  }

  /** Every transfer of the window fails. */
  ghost predicate Broken(script: nat -> Outcome, from: nat, to: nat) {
    forall t: nat | from <= t < to :: script(t).Failed?
  }

  /** Attempts go through exactly if some transfer of the window does, and end with the first that does. */
  lemma {:induction false} TriesEnd(script: nat -> Outcome, t: nat, end: nat, c: Chip, addr: nat, d: seq<byte>)
    requires t <= end && c.Valid() && addr + |d| <= SPACE
    ensures var a := Tries(script, t, end, c, addr, d);
            && t <= a.clock <= end
            && (a.ok <==> !Broken(script, t, end))
            && (if a.ok then a.clock > t && Broken(script, t, a.clock - 1) && !script(a.clock - 1).Failed?
                else a.clock == end)
    decreases end - t
  {
    hide Chip.Store;
    if t < end && script(t).Failed? { TriesEnd(script, t + 1, end, c.Store(addr, Latched(script(t), d)), addr, d); }
  }

  lemma NoTries(script: nat -> Outcome, t: nat, c: Chip, addr: nat, d: seq<byte>)
    requires c.Valid() && addr + |d| <= SPACE
    ensures Tries(script, t, t, c, addr, d) == Attempt(c, false, t)
  {}

  /** Nested retry loops are one longer retry loop. */
  lemma {:induction false} TriesSplit(
    script: nat -> Outcome, t: nat, mid: nat, end: nat, c: Chip, addr: nat, d: seq<byte>)
    requires t <= mid <= end && c.Valid() && addr + |d| <= SPACE
    ensures var a := Tries(script, t, mid, c, addr, d);
            Tries(script, t, end, c, addr, d) == if a.ok then a else Tries(script, mid, end, a.chip, addr, d)
    decreases mid - t
  {
    if t < mid && script(t).Failed? {
      TriesSplit(script, t + 1, mid, end, c.Store(addr, Latched(script(t), d)), addr, d);
    }
  }

  /** Any number of broken attempts stays inside the range, and an acknowledged
      faithful one leaves exactly the payload there. */
  lemma {:induction false} TriesStore(script: nat -> Outcome, t: nat, end: nat, c: Chip, addr: nat, d: seq<byte>)
    requires t <= end && c.Valid() && Steady(addr, |d|)
    ensures var a := Tries(script, t, end, c, addr, d);
            && Within(c, a.chip, addr, |d|)
            && (a.ok && Faithful(script, t, a.clock) ==> a.chip == c.Store(addr, d))
    decreases end - t
  {
    if t < end {
      var e := Latched(script(t), d);
      var c' := c.Store(addr, e);
      StoreView(c, addr, e);
      if script(t).Failed? {
        TriesStore(script, t + 1, end, c', addr, d);
        StoreOver(c, c', addr, d);
      }
    }
  }

  /** Below the SRAM window attempts touch only their range, and each byte of it is
      either new or as before. */
  lemma {:induction false} TriesBelow(script: nat -> Outcome, t: nat, end: nat, c: Chip, addr: nat, d: seq<byte>)
    requires t <= end && c.Valid() && addr + |d| <= SRAM
    ensures var a := Tries(script, t, end, c, addr, d);
            && Below(c, a.chip, addr, |d|)
            && (a.ok && Faithful(script, t, a.clock) ==> a.chip == c.Store(addr, d))
            && (Faithful(script, t, a.clock) ==>
                  forall i | addr <= i < addr + |d| :: a.chip.regs[i] == d[i - addr] || a.chip.regs[i] == c.regs[i])
    decreases end - t
  {
    if t < end {
      var e := Latched(script(t), d);
      StoreBelow(c, addr, e);
      if script(t).Failed? {
        var c' := c.Store(addr, e);
        TriesBelow(script, t + 1, end, c', addr, d);
        BelowOver(c, c', addr, d);
      }
    }
  }

  lemma {:induction false} TriesDead(script: nat -> Outcome, t: nat, end: nat, c: Chip, addr: nat, d: seq<byte>)
    requires t <= end && c.Valid() && addr + |d| <= SPACE && Dead(script, t, end)
    ensures Tries(script, t, end, c, addr, d) == Attempt(c, false, end)
    decreases end - t
  {
    if t < end {
      assert Latched(script(t), d) == [];
      StoreNothing(c, addr);
      TriesDead(script, t + 1, end, c, addr, d);
    }
  }

  lemma TriesClean(script: nat -> Outcome, t: nat, end: nat, c: Chip, addr: nat, d: seq<byte>)
    requires t < end && c.Valid() && addr + |d| <= SPACE && Clean(script, t)
    ensures Tries(script, t, end, c, addr, d) == Attempt(c.Store(addr, d), true, t + 1)
  {
    assert script(t).Done?;
  }

  /** What a write in the SRAM window leaves where. */
  lemma InBank(c: Chip, c': Chip, n: nat)
    requires n <= BANK_SIZE && Within(c, c', SRAM, n)
    ensures c'.Bank() == c.Bank()
    ensures c'.View()[SRAM..SRAM + n] == c'.sram[c'.Bank()][..n]
    ensures c'.sram[c.Bank()][n..] == c.sram[c.Bank()][n..]
    ensures forall b | 0 <= b < 256 && b != c.Bank() :: c'.sram[b] == c.sram[b]
  {
    forall i | n <= i < BANK_SIZE ensures c'.sram[c.Bank()][i] == c.sram[c.Bank()][i] {
      assert c'.View()[SRAM + i] == c.View()[SRAM + i];
    }
  }

  /** Sum of the big-endian 16-bit words of `s`. */
  function WordSum(s: seq<byte>): nat {
    if |s| < 2 then 0 else s[0] * 256 + s[1] + WordSum(s[2..])
  }

  lemma {:induction false} WordSumSnoc(s: seq<byte>, hi: byte, lo: byte)
    requires |s| % 2 == 0
    ensures WordSum(s + [hi, lo]) == WordSum(s) + hi * 256 + lo
  {
    if s == [] {
      assert s + [hi, lo] == [hi, lo];
      assert WordSum([hi, lo][2..]) == 0;
    } else {
      assert (s + [hi, lo])[2..] == s[2..] + [hi, lo];
      WordSumSnoc(s[2..], hi, lo);
    }
  }

  /** The sum of two stretches of words is the sum of their sums; one word counts its value. */
  lemma {:induction false} WordSumConcat(s: seq<byte>, t: seq<byte>)
    requires |s| % 2 == 0
    ensures WordSum(s + t) == WordSum(s) + WordSum(t)
    ensures |s| == 2 ==> WordSum(s) == s[0] as int * 256 + s[1] as int
  {
    if s == [] {
      assert s + t == t;
    } else {
      assert (s + t)[2..] == s[2..] + t;
      WordSumConcat(s[2..], t);
    }
  }

  /** A file of nothing but zeros passes. */
  lemma {:induction false} ZerosPass(s: seq<byte>)
    requires forall i | 0 <= i < |s| :: s[i] == 0
    ensures WordSum(s) == 0
  {
    if |s| >= 2 { ZerosPass(s[2..]); }
  }

  /** Another word in the place of the one behind `s` moves the sum by the difference. */
  lemma WordChanged(s: seq<byte>, w: seq<byte>, w': seq<byte>, t: seq<byte>)
    requires |s| % 2 == 0 && |w| == |w'| == 2
    ensures WordSum(s + w' + t) - WordSum(s + w + t) ==
            (w'[0] as int - w[0] as int) * 256 + (w'[1] as int - w[1] as int)
  {
    hide WordSum;
    WordSumConcat(s, w);
    WordSumConcat(s, w');
    WordSumConcat(s + w, t);
    WordSumConcat(s + w', t);
    WordSumConcat(w, []);
    WordSumConcat(w', []);
  }

  function Payload(image: seq<byte>, index: nat, n: nat): (r: seq<byte>)
    requires |image| == IMAGE_LENGTH && HEAD_LENGTH + index + n <= IMAGE_LENGTH
    ensures |r| == n
  {
    image[HEAD_LENGTH + index..HEAD_LENGTH + index + n]
  }

  /** The chip holds the whole image after its header. */
  ghost predicate Burnt(c: Chip, image: seq<byte>) {
    c.Valid() && |image| == IMAGE_LENGTH &&
    c.sram[0] + c.sram[1] + c.sram[2][..DSP_LENGTH] == image[HEAD_LENGTH..]
  }

  /** Only registers of the range may differ. */
  ghost predicate Below(c: Chip, c': Chip, addr: nat, n: nat) {
    && c.Valid() && c'.Valid() && c'.sram == c.sram
    && forall i | 0 <= i < SRAM && !(addr <= i < addr + n) :: c'.regs[i] == c.regs[i]
  }

  lemma StoreBelow(c: Chip, addr: nat, d: seq<byte>)
    requires c.Valid() && addr + |d| <= SRAM
    ensures Below(c, c.Store(addr, d), addr, |d|)
    ensures c.Store(addr, d).regs == Splice(c.regs, addr, d)
  {
    var v := Splice(c.View(), addr, d);
    assert v[SRAM..] == c.sram[c.Bank()];
    assert v[..SRAM] == Splice(c.regs, addr, d);
  }

  lemma BelowOver(c: Chip, c': Chip, addr: nat, d: seq<byte>)
    requires addr + |d| <= SRAM && Below(c, c', addr, |d|)
    ensures c'.Store(addr, d) == c.Store(addr, d)
  {
    StoreBelow(c, addr, d);
    StoreBelow(c', addr, d);
    var l, r := Splice(c.regs, addr, d), Splice(c'.regs, addr, d);
    assert forall i | 0 <= i < SRAM :: l[i] == r[i];
    assert l == r;
  }

  /** The store of a buffer in pieces of 1024 bytes, each with the bank in force when it starts. */
  function Chunked(c: Chip, addr: nat, d: seq<byte>): (r: Chip)
    requires c.Valid() && addr + |d| <= SPACE
    ensures r.Valid()
    decreases |d|
  {
    if d == [] then c
    else
      var n := if |d| > PACK_SIZE then PACK_SIZE else |d|;
      Chunked(c.Store(addr, d[..n]), addr + n, d[n..])
  }

  /** Unless the bank register lies inside the range, the pieces are one flat store. */
  lemma {:induction false} ChunkedFlat(c: Chip, addr: nat, d: seq<byte>)
    requires c.Valid() && Steady(addr, |d|)
    ensures Chunked(c, addr, d) == c.Store(addr, d)
    decreases |d|
  {
    hide Chip.Store, Chip.View;
    if d == [] {
      StoreNothing(c, addr);
    } else {
      var n := if |d| > PACK_SIZE then PACK_SIZE else |d|;
      ChunkedFlat(c.Store(addr, d[..n]), addr + n, d[n..]);
      StoreChunks(c, addr, d[..n], d[n..]);
      assert d[..n] + d[n..] == d;
    }
  }

  lemma ChunkedStep(c: Chip, addr: nat, d: seq<byte>, n: nat)
    requires c.Valid() && addr + |d| <= SPACE && d != [] && n == if |d| > PACK_SIZE then PACK_SIZE else |d|
    ensures Chunked(c, addr, d) == Chunked(c.Store(addr, d[..n]), addr + n, d[n..])
  {
    hide Chip.Store;
  }

  lemma ChunkedEnd(c: Chip, addr: nat)
    requires c.Valid() && addr <= SPACE
    ensures Chunked(c, addr, []) == c
  {}

  /** Pieces of full size but the last, counted. */
  lemma ChunksStep(k: nat, n: nat, total: nat)
    requires 0 < n <= PACK_SIZE && PACK_SIZE * k + n <= total
    ensures Chunks(PACK_SIZE * k + n) == k + 1 <= Chunks(total) && Chunks(0) == 0
  {}

  lemma FaithfulSplit(script: nat -> Outcome, from: nat, mid: nat, to: nat)
    requires from <= mid <= to && Faithful(script, from, to)
    ensures Faithful(script, from, mid) && Faithful(script, mid, to)
  {}

  lemma Tail(s: seq<byte>, a: nat, n: nat)
    requires a + n <= |s|
    ensures s[a..][..n] == s[a..a + n] && s[a..][n..] == s[a + n..]
  {}

  /** Everything i2c_write_bytes needs to know about the 25 attempts at one piece. */
  lemma ChunkDone(script: nat -> Outcome, t: nat, c: Chip, addr: nat, d: seq<byte>)
    requires c.Valid() && addr + |d| <= SPACE && |d| <= PACK_SIZE
    ensures var a := Tries(script, t, t + 25, c, addr, d);
            && (a.ok && Faithful(script, t, a.clock) ==> a.chip == c.Store(addr, d))
            && (Steady(addr, |d|) ==> Within(c, a.chip, addr, |d|))
            && (Clean(script, t) ==> a.ok)
            && (Dead(script, t, t + 25) ==> !a.ok && a.clock == t + 25)
  {
    hide Tries, Chip.Store, Chip.View, Within;
    PieceStored(script, t, t + 25, c, addr, d);
    if Steady(addr, |d|) { TriesStore(script, t, t + 25, c, addr, d); }
    if Clean(script, t) { TriesClean(script, t, t + 25, c, addr, d); }
    if Dead(script, t, t + 25) { TriesDead(script, t, t + 25, c, addr, d); }
  }

  /** One piece, acknowledged and faithful, is stored whatever the attempts before left. */
  lemma PieceStored(script: nat -> Outcome, t: nat, end: nat, c: Chip, addr: nat, d: seq<byte>)
    requires t <= end && c.Valid() && addr + |d| <= SPACE && |d| <= PACK_SIZE
    ensures var a := Tries(script, t, end, c, addr, d);
            a.ok && Faithful(script, t, a.clock) ==> a.chip == c.Store(addr, d)
  {
    hide Tries, Chip.Store, Chip.View;
    if Steady(addr, |d|) { TriesStore(script, t, end, c, addr, d); } else { TriesBelow(script, t, end, c, addr, d); }
  }

  lemma PayloadPart(image: seq<byte>, index: nat, len: nat, d: nat, n: nat)
    requires |image| == IMAGE_LENGTH && HEAD_LENGTH + index + len <= IMAGE_LENGTH && d + n <= len
    ensures Payload(image, index, len)[d..d + n] == image[HEAD_LENGTH + index + d..HEAD_LENGTH + index + d + n]
  {
    var p, q := Payload(image, index, len)[d..d + n], image[HEAD_LENGTH + index + d..HEAD_LENGTH + index + d + n];
    assert |p| == |q| && forall i | 0 <= i < n :: p[i] == q[i];
  }

  /** Comparing one more piece decides whether the longer prefixes, or the whole, agree. */
  lemma Compared(v: seq<byte>, p: seq<byte>, a: nat, d: nat, n: nat)
    requires a + |p| <= |v| && d + n <= |p| && v[a..a + d] == p[..d]
    ensures v[a + d..a + d + n] == p[d..d + n] ==> v[a..a + d + n] == p[..d + n]
    ensures v[a + d..a + d + n] != p[d..d + n] ==> v[a..a + |p|] != p
  {
    Glue(v, a, a + d, a + d + n);
    Glue(p, 0, d, d + n);
    var l, r := v[a..a + |p|][d..d + n], v[a + d..a + d + n];
    assert |l| == |r| && forall i | 0 <= i < n :: l[i] == r[i];
  }

  method MemCpy(dst: array<byte>, at: nat, src: seq<byte>)
    requires at + |src| <= dst.Length
    modifies dst
    ensures dst[at..at + |src|] == src && dst[..at] == old(dst[..at])
    ensures dst[..at + |src|] == old(dst[..at]) + src
    ensures forall i | 0 <= i < at :: dst[i] == old(dst[i])
  {
    forall i | 0 <= i < |src| { dst[at + i] := src[i]; }
    assert dst[..at + |src|] == dst[..at] + dst[at..at + |src|];
  }

  /** Copying the next piece of `v` behind the pieces copied so far. */
  method Append(dst: array<byte>, at: nat, src: seq<byte>, ghost v: seq<byte>, ghost base: nat)
    requires at + |src| <= dst.Length && base + at + |src| <= |v|
    requires dst[..at] == v[base..base + at] && src == v[base + at..base + at + |src|]
    modifies dst
    ensures dst[..at + |src|] == v[base..base + at + |src|]
  {
    MemCpy(dst, at, src);
    Glue(v, base, base + at, base + at + |src|);
  }

  /** The banks that were selected while the three parts were burnt. */
  datatype Banks = Banks(half1: byte, half2: byte, dsp: byte)

  /** The last attempt of the outer loop: its number, whether it went through, the
      transfer count, the lost selections and the chip when it began, and its banks. */
  datatype LastTry = LastTry(number: nat, done: bool, clock: nat, lost: nat, chip: Chip, banks: Banks)

  /** Bank `i` after the two halves went to the banks given. */
  function Halves(before: Chip, image: seq<byte>, b: Banks, i: byte): (r: seq<byte>)
    requires before.Valid() && |image| == IMAGE_LENGTH
    ensures |r| == BANK_SIZE
  {
    if i == b.half2 then Payload(image, BANK_SIZE, BANK_SIZE)
    else if i == b.half1 then Payload(image, 0, BANK_SIZE)
    else before.sram[i]
  }

  /** Bank `i` after all three parts. */
  function Final(before: Chip, image: seq<byte>, b: Banks, i: byte): (r: seq<byte>)
    requires before.Valid() && |image| == IMAGE_LENGTH
    ensures |r| == BANK_SIZE
  {
    var h := Halves(before, image, b, i);
    if i == b.dsp then Payload(image, 2 * BANK_SIZE, DSP_LENGTH) + h[DSP_LENGTH..] else h
  }

  /** Each part of the image is in its bank, later parts over earlier ones, and
      nothing else changed. */
  ghost predicate Placed(before: Chip, c: Chip, image: seq<byte>, b: Banks) {
    && before.Valid() && c.Valid() && |image| == IMAGE_LENGTH
    && forall i: byte :: c.sram[i] == Final(before, image, b, i)
  }

  /** Parts placed in these banks, over this chip, make up the image. */
  predicate Completes(before: Chip, image: seq<byte>, b: Banks)
    requires before.Valid() && |image| == IMAGE_LENGTH
  {
    && Final(before, image, b, 0) == Payload(image, 0, BANK_SIZE)
    && Final(before, image, b, 1) == Payload(image, BANK_SIZE, BANK_SIZE)
    && Final(before, image, b, 2)[..DSP_LENGTH] == Payload(image, 2 * BANK_SIZE, DSP_LENGTH)
  }

  /** Wherever the parts went, over whatever chip: when the image is burnt. */
  lemma BurntExactly(before: Chip, c: Chip, image: seq<byte>, b: Banks)
    requires Placed(before, c, image, b)
    ensures Burnt(c, image) <==> Completes(before, image, b)
  {
    hide Final, Payload;
    if Burnt(c, image) { Disassemble(c, image); }
    if Completes(before, image, b) { Assemble(c, image); }
  }

  /** With the banks that a faithful bus can produce, a bank that was passed over
      must have held its half already, or the two halves be the same. */
  lemma CompletesFaithfully(before: Chip, image: seq<byte>, b: Banks)
    requires before.Valid() && |image| == IMAGE_LENGTH
    requires b.dsp == 2 && (b.half2 == 1 || b.half2 == b.half1)
    ensures var p0, p1 := Payload(image, 0, BANK_SIZE), Payload(image, BANK_SIZE, BANK_SIZE);
            Completes(before, image, b) <==>
            && (if b.half1 != 0 then before.sram[0] == p0 else b.half2 == 1 || p0 == p1)
            && (b.half2 == 1 || before.sram[1] == p1)
  {
    hide Payload;
    var d := Payload(image, 2 * BANK_SIZE, DSP_LENGTH);
    assert (d + Halves(before, image, b, 2)[DSP_LENGTH..])[..DSP_LENGTH] == d;
  }

  /** With no select lost the chip before does not matter. */
  lemma CompletesInPlace(before: Chip, image: seq<byte>)
    requires before.Valid() && |image| == IMAGE_LENGTH
    ensures Completes(before, image, Banks(0, 1, 2))
  {
    CompletesFaithfully(before, image, Banks(0, 1, 2));
  }

  /** First the halves, then the DSP code. */
  lemma PlacedBy(before: Chip, mid: Chip, c: Chip, image: seq<byte>, b: Banks)
    requires before.Valid() && mid.Valid() && c.Valid() && |image| == IMAGE_LENGTH
    requires forall i: byte :: mid.sram[i] == Halves(before, image, b, i)
    requires forall i: byte | i != b.dsp :: c.sram[i] == mid.sram[i]
    requires c.sram[b.dsp][..DSP_LENGTH] == Payload(image, 2 * BANK_SIZE, DSP_LENGTH)
    requires c.sram[b.dsp][DSP_LENGTH..] == mid.sram[b.dsp][DSP_LENGTH..]
    ensures Placed(before, c, image, b)
  {
    hide Halves, Payload;
    var v := c.sram[b.dsp];
    assert v == v[..DSP_LENGTH] + v[DSP_LENGTH..];
  }

  lemma Assemble(c: Chip, image: seq<byte>)
    requires c.Valid() && |image| == IMAGE_LENGTH
    requires c.sram[0] == Payload(image, 0, BANK_SIZE) && c.sram[1] == Payload(image, BANK_SIZE, BANK_SIZE)
    requires c.sram[2][..DSP_LENGTH] == Payload(image, 2 * BANK_SIZE, DSP_LENGTH)
    ensures Burnt(c, image)
  {}

  lemma Disassemble(c: Chip, image: seq<byte>)
    requires Burnt(c, image)
    ensures c.sram[0] == Payload(image, 0, BANK_SIZE) && c.sram[1] == Payload(image, BANK_SIZE, BANK_SIZE)
    ensures c.sram[2][..DSP_LENGTH] == Payload(image, 2 * BANK_SIZE, DSP_LENGTH)
  {
    var all := c.sram[0] + c.sram[1] + c.sram[2][..DSP_LENGTH];
    assert all[..BANK_SIZE] == c.sram[0] && all[BANK_SIZE..2 * BANK_SIZE] == c.sram[1];
    assert all[2 * BANK_SIZE..] == c.sram[2][..DSP_LENGTH];
  }

  class Driver {
    const script: nat -> Outcome // outcome of the k-th transfer on the bus
    var clock: nat               // transfers attempted so far
    var chip: Chip
    const opr: array<byte>       // i2c_opr_buf
    const cmp: array<byte>       // chk_cmp_buf
    ghost var lost: nat          // bank selections after which another bank was selected

    ghost predicate Valid()
      reads this
    {
      chip.Valid() && opr.Length == ADDR_LENGTH + PACK_SIZE && cmp.Length == PACK_SIZE && opr != cmp
    }

    constructor (script: nat -> Outcome, chip: Chip)
      requires chip.Valid()
      ensures Valid() && fresh(opr) && fresh(cmp)
      ensures this.script == script && this.chip == chip && clock == 0 && lost == 0
    {
      this.script, this.chip := script, chip;
      clock, lost := 0, 0;
      opr := new byte[ADDR_LENGTH + PACK_SIZE];
      cmp := new byte[PACK_SIZE];
    }

    /** i2c_transfer of one write message. */
    method TransferWrite(msg: seq<byte>) returns (ret: int)
      requires Valid() && |msg| >= ADDR_LENGTH && AddrOf(msg) + |msg| - ADDR_LENGTH <= SPACE
      modifies this`clock, this`chip
      ensures Valid() && clock == old(clock) + 1 && ret <= 1
      ensures ret == 1 <==> !script(old(clock)).Failed?
      ensures chip == old(chip).Store(AddrOf(msg), Latched(script(old(clock)), msg[ADDR_LENGTH..]))
    {
      var o := script(clock);
      chip := chip.Store(AddrOf(msg), Latched(o, msg[ADDR_LENGTH..]));
      clock := clock + 1;
      ret := if o.Failed? then Min(o.code, 0) else 1;
    }

    /** gup_i2c_write: up to five attempts at the message in the first `len` bytes of `buf`. */
    method GupWrite(buf: array<byte>, len: nat) returns (ret: int)
      requires Valid() && ADDR_LENGTH <= len <= buf.Length
      requires AddrOf(buf[..len]) + len - ADDR_LENGTH <= SPACE
      modifies this`clock, this`chip
      ensures Valid() && ret <= 1
      ensures Tries(script, old(clock), old(clock) + 5, old(chip), AddrOf(buf[..len]), buf[ADDR_LENGTH..len])
           == Attempt(chip, ret == 1, clock)
    {
      hide Chip.Store, Chip.View, Latched;
      ret := -1;
      var retries := 0;
      ghost var a, d := AddrOf(buf[..len]), buf[ADDR_LENGTH..len];
      while retries < 5
        invariant 0 <= retries <= 5 && Valid() && ret != 1 && ret <= 1
        invariant clock == old(clock) + retries
        invariant Tries(script, old(clock), old(clock) + 5, old(chip), a, d)
               == Tries(script, clock, old(clock) + 5, chip, a, d)
      {
        assert buf[..len][ADDR_LENGTH..] == d;
        ret := TransferWrite(buf[..len]);
        if ret == 1 { break; }
        retries := retries + 1;
      }
    }

    /** i2c_write_bytes: chunks of at most 1024 bytes, each tried five times five. */
    method WriteBytes(addr0: nat, buf: seq<byte>) returns (ret: int)
      requires Valid() && addr0 < SPACE && addr0 + |buf| <= SPACE
      modifies this`clock, this`chip, opr
      ensures Valid() && (ret == 1 || ret == -1)
      ensures ret == 1 && Faithful(script, old(clock), clock) ==> chip == Chunked(old(chip), addr0, buf)
      ensures Steady(addr0, |buf|) ==>
                && Within(old(chip), chip, addr0, |buf|)
                && (ret == 1 && Faithful(script, old(clock), clock) ==> chip == old(chip).Store(addr0, buf))
      ensures old(clock) <= clock <= old(clock) + 25 * Chunks(|buf|)
      ensures ret == -1 ==> old(clock) + 25 <= clock && Broken(script, clock - 25, clock)
      ensures Clean(script, old(clock)) ==> ret == 1
      ensures buf != [] && Dead(script, old(clock), old(clock) + 25) ==> ret == -1 && clock == old(clock) + 25
    {
      hide Chip.Store, Chip.View, Tries, Within, Chunked, Chunks, Faithful, Dead, Broken;
      var addr, len, tx := addr0, |buf|, 0; // tx is tx_buf - buf
      ChunksStep(0, 1, 1);
      ghost var chunks := 0;
      WithinSelf(chip, addr0, |buf|);
      assert buf[0..] == buf;
      while len > 0
        invariant 0 <= len <= |buf| && tx == |buf| - len && (len > 0 ==> addr == addr0 + tx) && Valid()
        invariant tx == |buf| || tx == PACK_SIZE * chunks
        invariant chunks == Chunks(tx)
        invariant old(clock) <= clock <= old(clock) + 25 * chunks
        invariant tx > 0 ==> !Dead(script, old(clock), old(clock) + 25)
        invariant tx == 0 ==> clock == old(clock)
        invariant Steady(addr0, |buf|) ==> Within(old(chip), chip, addr0, |buf|)
        invariant Faithful(script, old(clock), clock) ==>
                    Chunked(chip, addr0 + tx, buf[tx..]) == Chunked(old(chip), addr0, buf)
      {
        opr[0], opr[1] := addr / 256, addr % 256;
        var bytes := if len > PACK_SIZE then PACK_SIZE else len;
        var chunk := buf[tx..tx + bytes];
        ghost var t, c := clock, chip;
        var ok := WriteChunk(addr, chunk);
        ChunkDone(script, t, c, addr, chunk);
        TriesEnd(script, t, t + 25, c, addr, chunk);
        if Steady(addr0, |buf|) { WithinTrans(old(chip), c, chip, addr0, |buf|, addr, bytes); }
        ChunksStep(chunks, bytes, |buf|);
        if !ok { return -1; }
        ChunkedStep(c, addr, buf[tx..], bytes);
        Tail(buf, tx, bytes);
        if Faithful(script, old(clock), clock) { FaithfulSplit(script, old(clock), t, clock); }
        addr, len, tx := (addr + bytes) % SPACE, len - bytes, tx + bytes;
        chunks := chunks + 1;
      }
      assert buf[tx..] == [];
      ChunkedEnd(chip, addr0 + tx);
      if Steady(addr0, |buf|) { ChunkedFlat(old(chip), addr0, buf); }
      ret := 1;
    }

    /** One chunk of i2c_write_bytes: fill the shared buffer, then five times gup_i2c_write. */
    method WriteChunk(addr: nat, chunk: seq<byte>) returns (ok: bool)
      requires Valid() && addr + |chunk| <= SPACE && addr < SPACE && |chunk| <= PACK_SIZE
      requires opr[0] == addr / 256 && opr[1] == addr % 256
      modifies this`clock, this`chip, opr
      ensures Valid()
      ensures Attempt(chip, ok, clock) == Tries(script, old(clock), old(clock) + 25, old(chip), addr, chunk)
    {
      hide Chip.Store, Chip.View, Tries;
      var n := |chunk|;
      MemCpy(opr, ADDR_LENGTH, chunk);
      var retry, ret := 0, 0;
      ghost var t, c := clock, chip;
      while retry < 5
        invariant 0 <= retry <= 5 && Valid() && ret != 1 && clock == t + 5 * retry
        invariant opr[ADDR_LENGTH..ADDR_LENGTH + n] == chunk
        invariant opr[0] == addr / 256 && opr[1] == addr % 256
        invariant Tries(script, t, t + 25, c, addr, chunk) == Tries(script, clock, t + 25, chip, addr, chunk)
      {
        TriesSplit(script, clock, clock + 5, t + 25, chip, addr, chunk);
        ret := GupWrite(opr, n + ADDR_LENGTH);
        if ret == 1 { break; }
        retry := retry + 1;
      }
      ok := retry < 5;
      NoTries(script, t + 25, chip, addr, chunk);
    }

    /** gup_i2c_read into the buffer whose first two bytes are the address. */
    method GupRead(buf: array<byte>, len: nat) returns (ret: int)
      requires Valid() && ADDR_LENGTH <= len <= buf.Length
      requires AddrOf(buf[..len]) + len - ADDR_LENGTH <= SPACE
      modifies this`clock, buf
      ensures Valid() && ret <= 2 && old(clock) < clock <= old(clock) + 5 && (ret != 2 ==> clock == old(clock) + 5)
      ensures buf[0] == old(buf[0]) && buf[1] == old(buf[1])
      ensures ret == 2 ==> buf[ADDR_LENGTH..len] == chip.View()[AddrOf(old(buf[..len]))..][..len - ADDR_LENGTH]
      ensures ret == 2 <==> !Broken(script, old(clock), old(clock) + 5)
      ensures Clean(script, old(clock)) ==> ret == 2
    {
      hide Chip.View;
      ret := -1;
      var retries, n := 0, len - ADDR_LENGTH;
      var a := AddrOf(buf[..len]);
      while retries < 5
        invariant 0 <= retries <= 5 && Valid() && clock == old(clock) + retries && ret < 2
        invariant buf[0] == old(buf[0]) && buf[1] == old(buf[1]) && chip == old(chip)
        invariant retries > 0 ==> !script(old(clock)).Done?
        invariant Broken(script, old(clock), clock)
      {
        var data, o := chip.View()[a..][..n], script(clock);
        clock := clock + 1;
        if o.Failed? {
          MemCpy(buf, ADDR_LENGTH, data[..Min(o.n, n)]);
          ret := Min(o.code, 1);
        } else {
          MemCpy(buf, ADDR_LENGTH, data);
          ret := 2;
          break;
        }
        retries := retries + 1;
      }
    }

    /** One chunk of i2c_read_bytes: five times gup_i2c_read into the shared buffer. */
    method ReadChunk(addr: nat, bytes: nat) returns (ok: bool)
      requires Valid() && addr < SPACE && addr + bytes <= SPACE && bytes <= PACK_SIZE
      requires opr[0] == addr / 256 && opr[1] == addr % 256
      modifies this`clock, opr
      ensures Valid() && old(clock) <= clock <= old(clock) + 25
      ensures ok ==> opr[ADDR_LENGTH..bytes + ADDR_LENGTH] == chip.View()[addr..addr + bytes]
      ensures ok <==> !Broken(script, old(clock), old(clock) + 25)
      ensures !ok ==> clock == old(clock) + 25
      ensures Clean(script, old(clock)) ==> ok
    {
      hide Chip.View;
      var retry := 0;
      while retry < 5
        invariant 0 <= retry <= 5 && Valid() && clock == old(clock) + 5 * retry && chip == old(chip)
        invariant opr[0] == addr / 256 && opr[1] == addr % 256
        invariant Clean(script, old(clock)) ==> retry == 0
        invariant Broken(script, old(clock), clock)
      {
        var r := GupRead(opr, bytes + ADDR_LENGTH);
        if r == 2 { break; }
        retry := retry + 1;
      }
      ok := retry < 5;
      assert chip.View()[addr..addr + bytes] == chip.View()[addr..][..bytes];
    }

    /** i2c_read_bytes: `len` bytes from `addr0` on into `buf`. */
    method ReadBytes(addr0: nat, buf: array<byte>, len0: nat) returns (ret: int)
      requires Valid() && addr0 < SPACE && addr0 + len0 <= SPACE && len0 <= buf.Length && buf != opr
      modifies this`clock, buf, opr
      ensures Valid() && (ret == 2 || ret == -1)
      ensures ret == 2 ==> buf[..len0] == chip.View()[addr0..addr0 + len0]
      ensures old(clock) <= clock <= old(clock) + 25 * Chunks(len0)
      ensures ret == -1 ==> old(clock) + 25 <= clock && Broken(script, clock - 25, clock)
      ensures Clean(script, old(clock)) ==> ret == 2
    {
      hide Chip.View;
      var addr, len, tx := addr0, len0, 0;
      ghost var chunks, v := 0, chip.View();
      while len > 0
        invariant 0 <= len <= len0 && tx == len0 - len && (len > 0 ==> addr == addr0 + tx) && Valid()
        invariant tx == len0 || tx == PACK_SIZE * chunks
        invariant chunks == Chunks(tx)
        invariant old(clock) <= clock <= old(clock) + 25 * chunks
        invariant buf[..tx] == v[addr0..addr0 + tx] && chip == old(chip)
      {
        opr[0], opr[1] := addr / 256, addr % 256;
        var bytes := if len > PACK_SIZE then PACK_SIZE else len;
        var ok := ReadChunk(addr, bytes);
        if !ok { return -1; }
        Append(buf, tx, opr[ADDR_LENGTH..bytes + ADDR_LENGTH], v, addr0);
        addr, len, tx := (addr + bytes) % SPACE, len - bytes, tx + bytes;
        chunks := chunks + 1;
      }
      return 2;
    }

    /** The comparison loop of gup_check_fw_proc. */
    method Compare(image: seq<byte>, pos: nat, n: nat) returns (same: bool)
      requires Valid() && n <= PACK_SIZE && pos + n <= |image|
      ensures same <==> cmp[..n] == image[pos..pos + n]
    {
      var i := 0;
      while i < n
        invariant 0 <= i <= n && forall k | 0 <= k < i :: cmp[k] == image[pos + k]
      {
        if cmp[i] != image[pos + i] {
          assert cmp[..n][i] != image[pos..pos + n][i];
          return false;
        }
        i := i + 1;
      }
      return true;
    }

    /** One piece of gup_check_fw_proc: read it back, then compare. */
    method CheckPiece(image: seq<byte>, addr: nat, pos: nat, n: nat) returns (same: bool)
      requires Valid() && n <= PACK_SIZE && pos + n <= |image| && addr < SPACE && addr + n <= SPACE
      modifies this`clock, opr, cmp
      ensures Valid() && old(clock) <= clock
      ensures same ==> chip.View()[addr..addr + n] == image[pos..pos + n]
      ensures Clean(script, old(clock)) && chip.View()[addr..addr + n] == image[pos..pos + n] ==> same
    {
      hide Chip.View;
      var ret := ReadBytes(addr, cmp, n);
      if ret < 0 { return false; }
      same := Compare(image, pos, n);
    }

    /** gup_check_fw_proc: read a section back in pieces and compare it with the image. */
    method CheckFwProc(image: seq<byte>, addr0: nat, index0: nat, len0: nat) returns (status: Status)
      requires Valid() && |image| == IMAGE_LENGTH && HEAD_LENGTH + index0 + len0 <= IMAGE_LENGTH
      requires addr0 < SPACE && addr0 + len0 <= SPACE
      modifies this`clock, opr, cmp
      ensures Valid() && old(clock) <= clock
      ensures status.SUCCESS? ==> chip.View()[addr0..addr0 + len0] == Payload(image, index0, len0)
      ensures Clean(script, old(clock)) && chip.View()[addr0..addr0 + len0] == Payload(image, index0, len0) ==>
                status.SUCCESS?
    {
      hide Chip.View, Payload;
      var addr, index, len := addr0, index0, len0;
      ghost var v, p := chip.View(), Payload(image, index0, len0);
      while len > 0
        invariant 0 <= len <= len0 && index == index0 + len0 - len
        invariant len > 0 ==> addr == addr0 + (len0 - len)
        invariant Valid() && chip == old(chip) && old(clock) <= clock
        invariant v[addr0..addr0 + (len0 - len)] == p[..len0 - len]
      {
        var n := if len >= PACK_SIZE then PACK_SIZE else len;
        ghost var d := len0 - len;
        var same := CheckPiece(image, addr, HEAD_LENGTH + index, n);
        PayloadPart(image, index0, len0, d, n);
        Compared(v, p, addr0, d, n);
        if !same { return FAIL; }
        addr, index, len := (addr + n) % SPACE, index + n, len - n;
      }
      return SUCCESS;
    }

    /** gup_set_ic_msg: five times gup_i2c_write of one register. */
    method SetIcMsg(addr: nat, val: byte) returns (status: Status)
      requires Valid() && addr < SRAM
      modifies this`clock, this`chip
      ensures Valid()
      ensures Attempt(chip, status.SUCCESS?, clock)
           == Tries(script, old(clock), old(clock) + 25, old(chip), addr, [val])
    {
      hide Chip.Store, Chip.View, Tries;
      var msg := new byte[3][addr / 256, addr % 256, val];
      assert msg[..3] == [addr / 256, addr % 256, val] && msg[ADDR_LENGTH..3] == [val];
      var i := 0;
      ghost var t, c := clock, chip;
      while i < 5
        invariant 0 <= i <= 5 && Valid() && clock == t + 5 * i
        invariant msg[..3] == [addr / 256, addr % 256, val] && msg[ADDR_LENGTH..3] == [val]
        invariant Tries(script, t, t + 25, c, addr, [val]) == Tries(script, clock, t + 25, chip, addr, [val])
      {
        TriesSplit(script, clock, clock + 5, t + 25, chip, addr, [val]);
        var ret := GupWrite(msg, ADDR_LENGTH + 1);
        if ret > 0 { break; }
        i := i + 1;
      }
      NoTries(script, t + 25, chip, addr, [val]);
      status := if i >= 5 then FAIL else SUCCESS;
    }

    /** The bank-select register write; `lost` records one that did not take effect. */
    method SelectBank(bank: byte) returns (status: Status)
      requires Valid()
      modifies this`clock, this`chip, this`lost
      ensures Valid() && old(clock) <= clock && chip.sram == old(chip).sram
      ensures lost == if chip.Bank() == bank then old(lost) else old(lost) + 1
      ensures Faithful(script, old(clock), clock) ==>
                (status.SUCCESS? ==> lost == old(lost)) && (chip.Bank() == bank || chip.Bank() == old(chip).Bank())
      ensures Clean(script, old(clock)) ==> status.SUCCESS? && lost == old(lost)
      ensures Dead(script, old(clock), old(clock) + 25) ==>
                status.FAIL? && chip == old(chip) && clock == old(clock) + 25
    {
      hide Chip.Store, Chip.View, Tries;
      ghost var t, c := clock, chip;
      status := SetIcMsg(BANK_REG, bank);
      TriesBelow(script, t, t + 25, c, BANK_REG, [bank]);
      StoreBelow(c, BANK_REG, [bank]);
      if Clean(script, t) { TriesClean(script, t, t + 25, c, BANK_REG, [bank]); }
      if Dead(script, t, t + 25) { TriesDead(script, t, t + 25, c, BANK_REG, [bank]); }
      if chip.Bank() != bank { lost := lost + 1; }
    }

    /** gup_burn_fw_proc, followed in burn mode by gup_check_fw_proc. */
    method Program(image: seq<byte>, addr: nat, index: nat, n: nat, mode: Mode) returns (status: Status)
      requires Valid() && |image| == IMAGE_LENGTH && HEAD_LENGTH + index + n <= IMAGE_LENGTH
      requires SRAM <= addr < SPACE && addr + n <= SPACE
      modifies this`clock, this`chip, opr, cmp
      ensures Valid() && old(clock) <= clock && Within(old(chip), chip, addr, n)
      ensures status.SUCCESS? && (mode.Burn? || Faithful(script, old(clock), clock)) ==>
                chip.View()[addr..addr + n] == Payload(image, index, n)
      ensures Clean(script, old(clock)) ==> status.SUCCESS?
      ensures n > 0 && Dead(script, old(clock), old(clock) + 25) ==> status.FAIL? && clock == old(clock) + 25
    {
      hide Chip.Store, Chip.View, Within, Chunked;
      ghost var c := chip;
      var ret := WriteBytes(addr, Payload(image, index, n));
      StoreView(c, addr, Payload(image, index, n));
      if ret < 0 { return FAIL; }
      status := SUCCESS;
      if mode.Burn? { status := CheckFwProc(image, addr, index, n); }
    }

    /** One round of gup_download_fw_ss51: select a bank, not looking at the result,
        and program a half of the code into whatever bank is selected. */
    method BurnHalf(image: seq<byte>, bank: byte, addr: nat, index: nat, mode: Mode)
      returns (status: Status, ghost b: byte)
      requires Valid() && |image| == IMAGE_LENGTH && addr == SRAM && index + BANK_SIZE <= 2 * BANK_SIZE
      modifies this`clock, this`chip, this`lost, opr, cmp
      ensures Valid() && old(clock) <= clock && b == chip.Bank()
      ensures lost == if b == bank then old(lost) else old(lost) + 1
      ensures forall i | 0 <= i < 256 && i != b :: chip.sram[i] == old(chip).sram[i]
      ensures status.SUCCESS? && (mode.Burn? || Faithful(script, old(clock), clock)) ==>
                chip.sram[b] == Payload(image, index, BANK_SIZE)
      ensures Faithful(script, old(clock), clock) ==> b == bank || b == old(chip).Bank()
      ensures Clean(script, old(clock)) ==> status.SUCCESS? && b == bank
      ensures Dead(script, old(clock), old(clock) + 25) ==>
                && clock >= old(clock) + 25 && b == old(chip).Bank()
                && (Clean(script, old(clock) + 25) ==> status.SUCCESS?)
      ensures Dead(script, old(clock), old(clock) + 50) ==> status.FAIL? && clock == old(clock) + 50
    {
      hide Chip.Store, Chip.View, Within;
      var _ := SelectBank(bank);
      ghost var c := chip;
      status := Program(image, addr, index, 2 * SECTION, mode);
      InBank(c, chip, 2 * SECTION);
      b := chip.Bank();
    }

    /** gup_download_fw_ss51.  `b0` and `b1` are the banks that were really
        selected while the two halves were burnt: each half is where the
        register said, whatever became of the select itself. */
    method DownloadFwSs51(image: seq<byte>, mode: Mode) returns (status: Status, ghost b0: byte, ghost b1: byte)
      requires Valid() && |image| == IMAGE_LENGTH
      modifies this`clock, this`chip, this`lost, opr, cmp
      ensures Valid() && old(clock) <= clock && old(lost) <= lost
      ensures forall b | 0 <= b < 256 && b != b0 && b != b1 :: chip.sram[b] == old(chip).sram[b]
      ensures status.SUCCESS? && (mode.Burn? || Faithful(script, old(clock), clock)) ==>
                && chip.sram[b1] == Payload(image, BANK_SIZE, BANK_SIZE)
                && (b0 != b1 ==> chip.sram[b0] == Payload(image, 0, BANK_SIZE))
      ensures status.SUCCESS? ==> (lost == old(lost) <==> b0 == 0 && b1 == 1)
      ensures status.SUCCESS? && Faithful(script, old(clock), clock) ==> b1 == 1 || b1 == b0
      ensures Clean(script, old(clock)) ==> status.SUCCESS? && lost == old(lost)
      ensures Dead(script, old(clock), old(clock) + 25) && Clean(script, old(clock) + 25) ==>
                status.SUCCESS? && b0 == old(chip).Bank() && b1 == 1 && clock >= old(clock) + 25
      ensures Dead(script, old(clock), old(clock) + 50) ==> status.FAIL? && clock == old(clock) + 50
    {
      b0, b1 := chip.Bank(), chip.Bank();
      var section := 1;
      ghost var c := chip;
      while section <= 4
        invariant section in {1, 3, 5} && Valid() && old(clock) <= clock && old(lost) <= lost
        invariant section == 1 ==> clock == old(clock) && chip == old(chip) && lost == old(lost)
        invariant section == 3 ==> b1 == b0 && (lost == old(lost) <==> b0 == 0)
        invariant section >= 3 ==>
                    && !Dead(script, old(clock), old(clock) + 50)
                    && (Clean(script, old(clock)) ==> lost == old(lost))
                    && (Dead(script, old(clock), old(clock) + 25) ==>
                          clock >= old(clock) + 25 && b0 == old(chip).Bank())
        invariant section == 3 ==> b0 == chip.Bank()
        invariant section == 5 ==>
                    && (lost == old(lost) <==> b0 == 0 && b1 == 1)
                    && (Faithful(script, old(clock), clock) ==> b1 == 1 || b1 == b0)
                    && (Clean(script, old(clock) + 25) && Dead(script, old(clock), old(clock) + 25) ==> b1 == 1)
        invariant forall b | 0 <= b < 256 && b != b0 && b != b1 :: chip.sram[b] == old(chip).sram[b]
        invariant section >= 3 && (mode.Burn? || Faithful(script, old(clock), clock)) ==>
                    (section == 5 && b0 == b1) || chip.sram[b0] == Payload(image, 0, BANK_SIZE)
        invariant section == 5 && (mode.Burn? || Faithful(script, old(clock), clock)) ==>
                    chip.sram[b1] == Payload(image, BANK_SIZE, BANK_SIZE)
      {
        var bank, addr: nat := 0, SRAM;
        if section <= 2 {
          bank, addr := 0, (section - 1) * SECTION + SRAM;
        } else {
          bank, addr := 1, (section - 3) * SECTION + SRAM;
        }
        var index := (section - 1) * SECTION;
        var ret;
        ret, b1 := BurnHalf(image, bank, addr, index, mode);
        if section == 1 { b0 := b1; }
        if ret.FAIL? { return FAIL, b0, b1; }
        section := section + 2;
      }
      status := SUCCESS;
    }

    /** gup_download_fw_dsp; `b` is the bank that was really selected. */
    method DownloadFwDsp(image: seq<byte>, mode: Mode) returns (status: Status, ghost b: byte)
      requires Valid() && |image| == IMAGE_LENGTH
      modifies this`clock, this`chip, this`lost, opr, cmp
      ensures Valid() && old(clock) <= clock
      ensures lost == if b == 2 then old(lost) else old(lost) + 1
      ensures forall i | 0 <= i < 256 && i != b :: chip.sram[i] == old(chip).sram[i]
      ensures |chip.sram[b]| == BANK_SIZE && chip.sram[b][DSP_LENGTH..] == old(chip).sram[b][DSP_LENGTH..]
      ensures status.SUCCESS? && (mode.Burn? || Faithful(script, old(clock), clock)) ==>
                chip.sram[b][..DSP_LENGTH] == Payload(image, 2 * BANK_SIZE, DSP_LENGTH)
      ensures status.SUCCESS? && Faithful(script, old(clock), clock) ==> b == 2
      ensures Clean(script, old(clock)) ==> status.SUCCESS? && b == 2
    {
      hide Chip.Store, Chip.View, Within;
      status := SelectBank(2);
      b := chip.Bank();
      if status.FAIL? { return; }
      ghost var c := chip;
      status := Program(image, SRAM, 2 * BANK_SIZE, DSP_LENGTH, mode);
      InBank(c, chip, DSP_LENGTH);
    }

    /** One attempt of the outer loop: ss51, then DSP. */
    method OneTry(image: seq<byte>, mode: Mode) returns (status: Status, ghost b: Banks)
      requires Valid() && |image| == IMAGE_LENGTH
      modifies this`clock, this`chip, this`lost, opr, cmp
      ensures Valid() && old(clock) <= clock && old(lost) <= lost
      ensures status.SUCCESS? && (mode.Burn? || Faithful(script, old(clock), clock)) ==>
                Placed(old(chip), chip, image, b)
      ensures status.SUCCESS? ==> (lost == old(lost) <==> b == Banks(0, 1, 2))
      ensures status.SUCCESS? && Faithful(script, old(clock), clock) ==>
                b.dsp == 2 && (b.half2 == 1 || b.half2 == b.half1)
      ensures Clean(script, old(clock)) ==> status.SUCCESS? && lost == old(lost)
      ensures Dead(script, old(clock), old(clock) + 25) && Clean(script, old(clock) + 25) ==>
                status.SUCCESS? && b == Banks(old(chip).Bank(), 1, 2)
      ensures Dead(script, old(clock), old(clock) + 50) ==> status.FAIL? && clock == old(clock) + 50
    {
      ghost var b0, b1, b2;
      status, b0, b1 := DownloadFwSs51(image, mode);
      b := Banks(b0, b1, chip.Bank());
      if status.FAIL? { return; }
      ghost var before, mid := old(chip), chip;
      status, b2 := DownloadFwDsp(image, mode);
      b := Banks(b0, b1, b2);
      if status.SUCCESS? && (mode.Burn? || Faithful(script, old(clock), clock)) {
        PlacedBy(before, mid, chip, image, b);
      }
    }

    /** gup_fw_download_proc, on the image in memory; `entered` is the result of
        gup_enter_update_mode.  `retry++ < 5` and `retry >= 5` as the source has
        them: a fifth attempt is made, but its success is reported as failure.
        Whatever earlier attempts did, it is the last one that counts. */
    method FwDownloadProc(image: seq<byte>, entered: bool, mode: Mode) returns (status: Status, ghost last: LastTry)
      requires Valid() && |image| == IMAGE_LENGTH
      modifies this`clock, this`chip, this`lost, opr, cmp
      ensures Valid() && old(clock) <= last.clock <= clock && old(lost) <= last.lost <= lost && last.number <= 5
      ensures status.SUCCESS? <==> last.done && last.number < 5
      ensures last.done ==> WordSum(image[HEAD_LENGTH..]) % 65536 == 0
      // wherever the selects led, the parts are there, and that tells whether the image is burnt
      ensures last.done && (mode.Burn? || Faithful(script, last.clock, clock)) ==>
                Placed(last.chip, chip, image, last.banks) &&
                (Burnt(chip, image) <==> Completes(last.chip, image, last.banks))
      ensures last.done ==> (lost == last.lost <==> last.banks == Banks(0, 1, 2))
      // with no select lost it is burnt
      ensures last.done && (mode.Burn? || Faithful(script, last.clock, clock)) && lost == last.lost ==>
                Burnt(chip, image)
      // and on a faithful bus only then, but for halves the chip held already
      ensures last.done && Faithful(script, last.clock, clock) ==>
                BurntFaithfully(last, chip, lost, image)
      ensures entered && WordSum(image[HEAD_LENGTH..]) % 65536 == 0 ==>
                Outcomes(script, old(clock), status, last, old(chip), chip, image)
    {
      hide Placed, Burnt, Completes, BurntFaithfully;
      last := LastTry(0, false, clock, lost, chip, Banks(0, 0, 0));
      status := CheckUpdateFile(image);
      if status.FAIL? { return; }
      if !entered { return FAIL, last; }
      var retry := 0;
      ghost var t := clock;
      while true
        invariant 0 <= retry <= 5 && Valid() && t <= clock && old(lost) <= lost
        invariant !last.done && last.number <= 5 && t <= last.clock <= clock && old(lost) <= last.lost <= lost
        invariant last.chip.Valid()
        invariant retry == 0 ==> clock == t && chip == old(chip) && lost == old(lost)
        invariant retry > 0 ==> !Clean(script, t) && !(Dead(script, t, t + 25) && Clean(script, t + 25))
        invariant Dead(script, t, t + 200) ==> (retry <= 4 ==> clock == t + 50 * retry)
        invariant retry == 5 ==> !(Dead(script, t, t + 200) && Clean(script, t + 200))
        decreases 5 - retry
      {
        retry := retry + 1;
        if retry > 5 { break; }
        last := LastTry(retry, false, clock, lost, chip, Banks(0, 0, 0));
        var ret;
        ghost var b;
        ret, b := OneTry(image, mode);
        if ret.FAIL? { continue; }
        last := last.(done := true, banks := b);
        Verdict(last, chip, lost, image, mode.Burn? || Faithful(script, last.clock, clock),
                Faithful(script, last.clock, clock));
        break;
      }
      if retry >= 5 { return FAIL, last; }
      status := SUCCESS;
    }
  }

  /** What the burner does on a perfect bus, on one that loses exactly the first
      select, and on one that is dead for four whole attempts. */
  ghost predicate Outcomes(script: nat -> Outcome, t: nat, status: Status, last: LastTry,
                           before: Chip, after: Chip, image: seq<byte>)
    requires before.Valid() && after.Valid()
  {
    && (Clean(script, t) ==> status.SUCCESS? && Burnt(after, image))
    && (Dead(script, t, t + 25) && Clean(script, t + 25) && before.Bank() == 1 ==>
          status.SUCCESS? && after.sram[0] == before.sram[0])
    && (Dead(script, t, t + 200) && Clean(script, t + 200) ==>
          status.FAIL? && last.number == 5 && last.done && Burnt(after, image))
  }

  /** On a faithful bus: a bank that was passed over must have held its half already,
      or the halves be the same; over a chip without the halves no select may be lost. */
  ghost predicate BurntFaithfully(last: LastTry, c: Chip, lost: nat, image: seq<byte>)
    requires last.chip.Valid() && |image| == IMAGE_LENGTH
  {
    var b, p0, p1 := last.banks, Payload(image, 0, BANK_SIZE), Payload(image, BANK_SIZE, BANK_SIZE);
    && (Burnt(c, image) <==>
        && (if b.half1 != 0 then last.chip.sram[0] == p0 else b.half2 == 1 || p0 == p1)
        && (b.half2 == 1 || last.chip.sram[1] == p1))
    && (last.chip.sram[0] != p0 && last.chip.sram[1] != p1 ==> (Burnt(c, image) <==> lost == last.lost))
  }

  /** From where the parts are to whether the image is burnt. */
  lemma Verdict(last: LastTry, c: Chip, lost: nat, image: seq<byte>, placed: bool, faithful: bool)
    requires last.chip.Valid() && c.Valid() && |image| == IMAGE_LENGTH
    requires placed ==> Placed(last.chip, c, image, last.banks)
    requires lost == last.lost <==> last.banks == Banks(0, 1, 2)
    requires faithful ==> placed && last.banks.dsp == 2
    requires faithful ==> last.banks.half2 == 1 || last.banks.half2 == last.banks.half1
    ensures placed ==> (Burnt(c, image) <==> Completes(last.chip, image, last.banks))
    ensures placed && lost == last.lost ==> Burnt(c, image)
    ensures faithful ==> BurntFaithfully(last, c, lost, image)
    ensures placed && last.banks == Banks(1, 1, 2) ==> c.sram[0] == last.chip.sram[0]
  {
    hide Burnt, Payload, Completes;
    if placed {
      BurntExactly(last.chip, c, image, last.banks);
      CompletesInPlace(last.chip, image);
    }
    if faithful { CompletesFaithfully(last.chip, image, last.banks); }
  }

  /** The checksum loop of gup_check_update_file: 16-bit words, in a 32-bit sum that cannot overflow. */
  method CheckUpdateFile(image: seq<byte>) returns (status: Status)
    requires |image| == IMAGE_LENGTH
    ensures status.SUCCESS? <==> WordSum(image[HEAD_LENGTH..]) % 65536 == 0
    ensures (forall i | HEAD_LENGTH <= i < IMAGE_LENGTH :: image[i] == 0) ==> status.SUCCESS?
  {
    if forall i | HEAD_LENGTH <= i < IMAGE_LENGTH :: image[i] == 0 { ZerosPass(image[HEAD_LENGTH..]); }
    var sum, i := 0, HEAD_LENGTH;
    while i < HEAD_LENGTH + 4 * SECTION + DSP_LENGTH
      invariant HEAD_LENGTH <= i <= IMAGE_LENGTH && i % 2 == 0
      invariant sum == WordSum(image[HEAD_LENGTH..i]) && 2 * sum <= 65535 * (i - HEAD_LENGTH)
    {
      WordSumSnoc(image[HEAD_LENGTH..i], image[i], image[i + 1]);
      assert image[HEAD_LENGTH..i + 2] == image[HEAD_LENGTH..i] + [image[i], image[i + 1]];
      sum := sum + Be16(image[i], image[i + 1]);
      assert sum < 0x8000_0000;
      i := i + 2;
    }
    assert image[HEAD_LENGTH..i] == image[HEAD_LENGTH..];
    status := if sum % 65536 != 0 then FAIL else SUCCESS;
  }

  /** The dropped result of the bank select matters: a bus that loses exactly the
      first select, on a chip whose bank 1 is selected, makes the burner report
      success over a bank 0 it never wrote. */
  method StaleBank(image: seq<byte>, chip: Chip) returns (status: Status, after: Chip)
    requires |image| == IMAGE_LENGTH && WordSum(image[HEAD_LENGTH..]) % 65536 == 0
    requires chip.Valid() && chip.Bank() == 1 && chip.sram[0] != Payload(image, 0, BANK_SIZE)
    ensures status.SUCCESS? && after.Valid() && after.sram[0] == chip.sram[0] && !Burnt(after, image)
  {
    var d := new Driver((t: nat) => if t < 25 then Failed(0, -5) else Done, chip);
    ghost var last;
    status, last := d.FwDownloadProc(image, true, Burn);
    after := d.chip;
  }

  /** Four dead attempts and a fifth that goes through: the image is burnt, and the
      burner reports failure. */
  method FifthAttempt(image: seq<byte>, chip: Chip) returns (status: Status, after: Chip)
    requires |image| == IMAGE_LENGTH && WordSum(image[HEAD_LENGTH..]) % 65536 == 0 && chip.Valid()
    ensures status.FAIL? && Burnt(after, image)
  {
    hide Burnt, Placed;
    var d := new Driver((t: nat) => if t < 200 then Failed(0, -5) else Done, chip);
    ghost var last;
    status, last := d.FwDownloadProc(image, true, Burn);
    after := d.chip;
  }
}
