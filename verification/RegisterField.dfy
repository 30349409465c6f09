/** Bit fields of 32-bit registers, as lidbg_mem.c reads and writes them. */
module RegisterField {
  import opened Bits

  const WORD := 0x1_0000_0000

  type u32 = w: int | 0 <= w < WORD

  /** Bits the mask loop really sets: `num`, but all 32 for 0 (the loop bound wraps) and beyond 32. */
  function Width(num: u32): (w: nat)
    ensures 1 <= w <= 32
  {
    if num == 0 || num > 32 then 32 else num
  }

  /** Bits of the field that lie inside the word. */
  function Inside(offset: nat, num: u32): (w: nat)
    requires offset < 32
    ensures 1 <= w && offset + w <= 32
  {
    if Width(num) <= 32 - offset then Width(num) else 32 - offset
  }

  function Mark(num: u32): nat { Pow2(Width(num)) - 1 }

  /** `a << k` in an unsigned 32-bit word. */
  function Shl32(a: nat, k: nat): nat { Low(Shl(a, k), 32) }

  function WriteField(word: nat, offset: nat, num: u32, value: nat): u32 {
    var kept, put := Zip(AndNot, word, Shl32(Mark(num), offset), 32), Shl32(Zip(And, value, Mark(num), 32), offset);
    ZipBound(Or, kept, put, 32);
    Powers();
    Zip(Or, kept, put, 32)
  }

  function ReadField(word: nat, offset: nat, num: u32): nat {
    Shr(Zip(And, word, Shl32(Mark(num), offset), 32), offset)
  }

  /** The mask loop of all four functions. */
  method BuildMark(num: u32) returns (mark: nat)
    ensures mark == Mark(num)
  {
    hide Pow2;
    mark := 1;
    var i, bound := 0, (num - 1) % WORD;
    Powers();
    ghost var k := 1; // ones so far
    while i < bound
      invariant 0 <= i <= bound && k == (if i < 32 then i + 1 else 32) && mark == Pow2(k) - 1
    {
      PowerStep(k);
      mark := (2 * mark + 1) % WORD;
      i := i + 1;
      k := if k < 32 then k + 1 else 32;
    }
    assert k == Width(num);
  }

  lemma Powers()
    ensures Pow2(1) == 2 && Pow2(32) == WORD
  {
    assert Pow2(8) == 0x100;
    assert Pow2(16) == 0x1_0000;
    assert Pow2(24) == 0x100_0000;
  }

  lemma PowerStep(k: nat)
    requires 1 <= k <= 32
    ensures (2 * (Pow2(k) - 1) + 1) % WORD == if k < 32 then Pow2(k + 1) - 1 else Pow2(k) - 1
  {
    Powers();
    if k < 32 { PowerGrows(k + 1, 32); }
  }

  lemma {:induction false} PowerGrows(a: nat, b: nat)
    requires a <= b
    ensures Pow2(a) <= Pow2(b)
    decreases b - a
  {
    if a < b { PowerGrows(a, b - 1); }
  }

  /** Memory seen through read_phy_addr and write_phy_addr, or their virtual twins. */
  class Memory {
    var words: map<nat, u32>

    constructor (words: map<nat, u32>)
      ensures this.words == words
    {
      this.words := words;
    }

    /** write_phy_addr_bit and write_virt_addr_bit. */
    method WriteBits(offset: nat, num: u32, addr: nat, value: u32)
      requires offset < 32 && addr in words
      modifies this
      ensures words.Keys == old(words.Keys)
      ensures words == old(words)[addr := WriteField(old(words)[addr], offset, num, value)]
    {
      var mark := BuildMark(num);
      hide Zip, Shl32;
      var temp := words[addr];
      var masked := Zip(Or, Zip(AndNot, temp, Shl32(mark, offset), 32), Shl32(Zip(And, value, mark, 32), offset), 32);
      assert masked == WriteField(temp, offset, num, value);
      words := words[addr := masked];
    }

    /** read_phy_addr_bit and read_virt_addr_bit. */
    method ReadBits(offset: nat, num: u32, addr: nat) returns (value: nat)
      requires offset < 32 && addr in words
      ensures value == ReadField(words[addr], offset, num)
    {
      var mark := BuildMark(num);
      hide Zip, Shl32, Shr;
      value := words[addr];
      value := Shr(Zip(And, value, Shl32(mark, offset), 32), offset);
    }

    /** Write a field, then read it back. */
    method WriteThenRead(offset: nat, num: u32, addr: nat, value: u32) returns (got: nat)
      requires offset < 32 && addr in words
      modifies this
      ensures got == value % Pow2(Inside(offset, num))
      ensures forall a | a in old(words) && a != addr :: a in words && words[a] == old(words)[a]
    {
      hide WriteField, ReadField;
      WriteBits(offset, num, addr, value);
      got := ReadBits(offset, num, addr);
      ReadAfterWrite(old(words)[addr], offset, num, value);
    }
  }

  // ---- bit by bit ----

  lemma MaskBit(offset: nat, num: u32, i: nat)
    requires offset < 32 && i < 32
    ensures Bit(Shl32(Mark(num), offset), i) == (offset <= i < offset + Inside(offset, num))
  {
    hide Bit, Low, Shl;
    LowBit(Shl(Mark(num), offset), 32, i);
    ShlBit(Mark(num), offset, i);
    if offset <= i { OnesBit(Width(num), i - offset); }
  }

  lemma WriteBitAt(word: nat, offset: nat, num: u32, value: nat, i: nat)
    requires offset < 32 && i < 32
    ensures Bit(WriteField(word, offset, num, value), i)
         == if offset <= i < offset + Inside(offset, num) then Bit(value, i - offset) else Bit(word, i)
  {
    hide Bit, Low, Shl, Zip, Pow2;
    var m := Mark(num);
    var kept, put := Zip(AndNot, word, Shl32(m, offset), 32), Zip(And, value, m, 32);
    ZipBit(Or, kept, Shl32(put, offset), 32, i);
    ZipBit(AndNot, word, Shl32(m, offset), 32, i);
    MaskBit(offset, num, i);
    LowBit(Shl(put, offset), 32, i);
    ShlBit(put, offset, i);
    if offset <= i {
      ZipBit(And, value, m, 32, i - offset);
      OnesBit(Width(num), i - offset);
    }
  }

  lemma ReadBitAt(word: nat, offset: nat, num: u32, i: nat)
    requires offset < 32
    ensures Bit(ReadField(word, offset, num), i) == (i < Inside(offset, num) && Bit(word, i + offset))
  {
    hide Bit, Low, Shl, Zip, Pow2;
    ShrBit(Zip(And, word, Shl32(Mark(num), offset), 32), offset, i);
    ZipBit(And, word, Shl32(Mark(num), offset), 32, i + offset);
    if i + offset < 32 { MaskBit(offset, num, i + offset); }
  }

  lemma {:induction false} ShrSmaller(a: nat, k: nat, w: nat)
    requires a < Pow2(w)
    ensures Shr(a, k) < Pow2(w)
  {
    if k > 0 { ShrSmaller(a / 2, k - 1, w); }
  }

  lemma ReadInWord(word: nat, offset: nat, num: u32)
    ensures ReadField(word, offset, num) < Pow2(32)
  {
    hide Zip, Low, Shl, Pow2, Shr;
    ZipBound(And, word, Shl32(Mark(num), offset), 32);
    ShrSmaller(Zip(And, word, Shl32(Mark(num), offset), 32), offset, 32);
  }

  /** A field reads as the quotient and remainder that its position and width say. */
  lemma ReadIsSlice(word: nat, offset: nat, num: u32)
    requires offset < 32
    ensures ReadField(word, offset, num) == Shr(word, offset) % Pow2(Inside(offset, num))
  {
    hide Bit, Low, ReadField, Shr, Pow2;
    var w, q := Inside(offset, num), Shr(word, offset);
    ReadInWord(word, offset, num);
    Split(q, w);
    PowerGrows(w, 32);
    forall i: nat | i < 32 ensures Bit(ReadField(word, offset, num), i) == Bit(Low(q, w), i) {
      ReadBitAt(word, offset, num, i);
      LowBit(q, w, i);
      ShrBit(word, offset, i);
    }
    Extensional(ReadField(word, offset, num), Low(q, w), 32);
    LowIsMod(q, w);
  }

  // ---- the laws ----

  /** Reading a field after writing it returns the value, cut to the width of the field. */
  lemma ReadAfterWrite(word: nat, offset: nat, num: u32, value: nat)
    requires offset < 32
    ensures ReadField(WriteField(word, offset, num, value), offset, num) == value % Pow2(Inside(offset, num))
  {
    hide Bit, Low, ReadField, WriteField, Pow2;
    var w, word' := Inside(offset, num), WriteField(word, offset, num, value);
    ReadInWord(word', offset, num);
    Split(value, w);
    PowerGrows(w, 32);
    forall i: nat | i < 32 ensures Bit(ReadField(word', offset, num), i) == Bit(Low(value, w), i) {
      ReadBitAt(word', offset, num, i);
      LowBit(value, w, i);
      if i < w { WriteBitAt(word, offset, num, value, i + offset); }
    }
    Extensional(ReadField(word', offset, num), Low(value, w), 32);
    LowIsMod(value, w);
  }

  /** A field that shares no bit with the one written reads as before. */
  lemma DisjointUntouched(word: nat, offset: nat, num: u32, value: nat, offset': nat, num': u32)
    requires offset < 32 && offset' < 32
    requires offset + Inside(offset, num) <= offset' || offset' + Inside(offset', num') <= offset
    ensures ReadField(WriteField(word, offset, num, value), offset', num') == ReadField(word, offset', num')
  {
    hide Bit, ReadField, WriteField, Pow2;
    var word' := WriteField(word, offset, num, value);
    ReadInWord(word, offset', num');
    ReadInWord(word', offset', num');
    forall i: nat | i < 32 ensures Bit(ReadField(word', offset', num'), i) == Bit(ReadField(word, offset', num'), i) {
      ReadBitAt(word, offset', num', i);
      ReadBitAt(word', offset', num', i);
      if i < Inside(offset', num') { WriteBitAt(word, offset, num, value, i + offset'); }
    }
    Extensional(ReadField(word', offset', num'), ReadField(word, offset', num'), 32);
  }

  /** Writing back what was read changes nothing. */
  lemma WriteBack(word: u32, offset: nat, num: u32)
    requires offset < 32
    ensures WriteField(word, offset, num, ReadField(word, offset, num)) == word
  {
    hide Bit, ReadField, WriteField, Pow2;
    var value := ReadField(word, offset, num);
    Powers();
    forall i: nat | i < 32 ensures Bit(WriteField(word, offset, num, value), i) == Bit(word, i) {
      WriteBitAt(word, offset, num, value, i);
      if offset <= i { ReadBitAt(word, offset, num, i - offset); }
    }
    Extensional(WriteField(word, offset, num, value), word, 32);
  }

  lemma ShrIsDiv(a: nat, k: nat)
    ensures Shr(a, k) == a / Pow2(k)
  {
    Split(a, k);
    DivUnique(a, Pow2(k), Shr(a, k), Low(a, k));
  }

  /** The bits from `k` on of two words that differ below only. */
  lemma SameAbove(a: u32, b: u32, k: nat)
    requires forall i: nat | k <= i < 32 :: Bit(a, i) == Bit(b, i)
    ensures a / Pow2(k) == b / Pow2(k)
  {
    hide Bit, Pow2, Shr;
    Powers();
    forall i: nat | i < 32 ensures Bit(Shr(a, k), i) == Bit(Shr(b, k), i) {
      ShrBit(a, k, i);
      ShrBit(b, k, i);
      if i + k >= 32 {
        HighBit(a, 32, i + k);
        HighBit(b, 32, i + k);
      }
    }
    ShrSmaller(a, k, 32);
    ShrSmaller(b, k, 32);
    Extensional(Shr(a, k), Shr(b, k), 32);
    ShrIsDiv(a, k);
    ShrIsDiv(b, k);
  }

  /** The bits below `k` of two words that differ above only. */
  lemma SameBelow(a: nat, b: nat, k: nat)
    requires forall i: nat | i < k :: Bit(a, i) == Bit(b, i)
    ensures a % Pow2(k) == b % Pow2(k)
  {
    hide Bit, Pow2, Low;
    forall i: nat | i < k ensures Bit(Low(a, k), i) == Bit(Low(b, k), i) {
      LowBit(a, k, i);
      LowBit(b, k, i);
    }
    Split(a, k);
    Split(b, k);
    Extensional(Low(a, k), Low(b, k), k);
    LowIsMod(a, k);
    LowIsMod(b, k);
  }

  /** Reading and writing in plain arithmetic: the field has `num` bits, but reaches to
      the top of the word if `num` is 0 or too large; the rest of the word stays. */
  lemma FieldInNumbers(word: u32, offset: nat, num: u32, value: nat)
    requires offset < 32
    ensures var n: nat := if 1 <= num <= 32 - offset then num else 32 - offset;
            var word' := WriteField(word, offset, num, value);
            && ReadField(word, offset, num) == word / Pow2(offset) % Pow2(n)
            && word' / Pow2(offset) % Pow2(n) == value % Pow2(n)
            && word' / Pow2(offset + n) == word / Pow2(offset + n)
            && word' % Pow2(offset) == word % Pow2(offset)
  {
    hide Bit, Pow2, ReadField, WriteField, Shr;
    var n, word' := Inside(offset, num), WriteField(word, offset, num, value);
    ReadIsSlice(word, offset, num);
    ReadIsSlice(word', offset, num);
    ShrIsDiv(word, offset);
    ShrIsDiv(word', offset);
    ReadAfterWrite(word, offset, num, value);
    forall i: nat | i < 32 ensures offset <= i < offset + n || Bit(word', i) == Bit(word, i) {
      WriteBitAt(word, offset, num, value, i);
    }
    SameAbove(word', word, offset + n);
    SameBelow(word', word, offset);
  }
}
