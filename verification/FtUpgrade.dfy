/** The FocalTech FT5x06 firmware upgrade: packets with 16-bit address headers,
    an XOR checksum, and the format check of the firmware file. */
module FtUpgrade {
  import opened Bits
  import opened Overwrite

  const PKT_LEN: nat := 128
  const META_LEN: nat := 6
  const START_REG: byte := 0xBF
  const LAST_PKT: nat := 0x6ffa
  const TAIL: nat := 6
  const MIN_SIZE: nat := 8
  const MAX_SIZE: nat := 32768
  const FLASH: nat := 0x10000
  const EIO := -5
  const EFAULT := -14

  type Packet = seq<byte>

  function AddrOf(p: Packet): nat
    requires |p| >= META_LEN
  {
    Be16(p[2], p[3])
  }

  function LenOf(p: Packet): nat
    requires |p| >= META_LEN
  {
    Be16(p[4], p[5])
  }

  /** The header tells the truth about the payload. */
  predicate Sound(p: Packet) {
    META_LEN < |p| <= META_LEN + PKT_LEN && p[0] == START_REG && p[1] == 0 && LenOf(p) == |p| - META_LEN
  }

  /** `ps` transports exactly `d` to the addresses from `at` on. */
  ghost predicate Carries(ps: seq<Packet>, at: nat, d: seq<byte>) {
    if ps == [] then d == []
    else
      && Sound(ps[0]) && AddrOf(ps[0]) == at && LenOf(ps[0]) <= |d|
      && ps[0][META_LEN..] == d[..LenOf(ps[0])]
      && Carries(ps[1..], at + LenOf(ps[0]), d[LenOf(ps[0])..])
  }

  lemma CarriesCons(p: Packet, ps: seq<Packet>, at: nat, d: seq<byte>)
    requires Sound(p) && AddrOf(p) == at && Carries(ps, at + LenOf(p), d)
    ensures Carries([p] + ps, at, p[META_LEN..] + d)
  {
    hide LenOf, AddrOf;
    assert ([p] + ps)[1..] == ps;
    assert (p[META_LEN..] + d)[LenOf(p)..] == d && (p[META_LEN..] + d)[..LenOf(p)] == p[META_LEN..];
  }

  lemma CarriesUncons(ps: seq<Packet>, at: nat, d: seq<byte>)
    requires Carries(ps, at, d) && ps != []
    ensures Sound(ps[0]) && AddrOf(ps[0]) == at && LenOf(ps[0]) <= |d|
    ensures d == ps[0][META_LEN..] + d[LenOf(ps[0])..]
    ensures Carries(ps[1..], at + LenOf(ps[0]), d[LenOf(ps[0])..])
  {}

  lemma {:induction false} CarriesSnoc(ps: seq<Packet>, at: nat, d: seq<byte>, p: Packet)
    requires Carries(ps, at, d) && Sound(p) && AddrOf(p) == at + |d|
    ensures Carries(ps + [p], at, d + p[META_LEN..])
  {
    var body := p[META_LEN..];
    if ps == [] {
      CarriesCons(p, [], at, []);
      assert ps + [p] == [p] + [] && d + body == body + [];
    } else {
      hide Sound, LenOf, AddrOf, Carries;
      CarriesUncons(ps, at, d);
      SoundParts(ps[0]);
      var n := LenOf(ps[0]);
      CarriesSnoc(ps[1..], at + n, d[n..], p);
      CarriesCons(ps[0], ps[1..] + [p], at, d[n..] + body);
      assert ps == [ps[0]] + ps[1..];
      Assoc([ps[0]], ps[1..], [p]);
      Assoc(ps[0][META_LEN..], d[n..], body);
    }
  }

  lemma SoundParts(p: Packet)
    requires Sound(p)
    ensures META_LEN < |p| && LenOf(p) == |p| - META_LEN
  {}

  predicate Covers(p: Packet, a: nat) {
    Sound(p) && AddrOf(p) <= a < AddrOf(p) + LenOf(p)
  }

  /** Every byte travels in exactly one packet, under its own address. */
  lemma {:induction false} ExactlyOnce(ps: seq<Packet>, at: nat, d: seq<byte>, a: nat)
    requires Carries(ps, at, d)
    ensures forall i | 0 <= i < |ps| :: Sound(ps[i])
    ensures forall i | 0 <= i < |ps| && Covers(ps[i], a) ::
              at <= a < at + |d| && ps[i][META_LEN + a - AddrOf(ps[i])] == d[a - at]
    ensures at <= a < at + |d| ==> exists i :: 0 <= i < |ps| && Covers(ps[i], a)
    ensures forall i, j | 0 <= i < j < |ps| :: !(Covers(ps[i], a) && Covers(ps[j], a))
  {
    if ps != [] {
      var n, rest := LenOf(ps[0]), ps[1..];
      ExactlyOnce(rest, at + n, d[n..], a);
      assert forall i | 0 < i < |ps| :: ps[i] == rest[i - 1];
      if at <= a < at + n {
        assert Covers(ps[0], a) && ps[0][META_LEN..][a - at] == d[..n][a - at];
      } else if at + n <= a < at + |d| {
        var i :| 0 <= i < |rest| && Covers(rest[i], a);
        assert Covers(ps[i + 1], a);
      }
    }
  }

  /** What a device does that stores each packet at its header address. */
  function Replay(flash: seq<byte>, ps: seq<Packet>): (r: seq<byte>)
    requires |flash| == FLASH
    ensures |r| == FLASH
    decreases |ps|
  {
    if ps == [] then flash
    else if |ps[0]| < META_LEN || AddrOf(ps[0]) + |ps[0]| - META_LEN > FLASH then Replay(flash, ps[1..])
    else Replay(Splice(flash, AddrOf(ps[0]), ps[0][META_LEN..]), ps[1..])
  }

  lemma {:induction false} ReplayCarries(flash: seq<byte>, ps: seq<Packet>, at: nat, d: seq<byte>)
    requires |flash| == FLASH && Carries(ps, at, d) && at + |d| <= FLASH
    ensures Replay(flash, ps) == Splice(flash, at, d)
    decreases |ps|
  {
    if ps == [] {
      assert Splice(flash, at, d) == flash;
    } else {
      var n := LenOf(ps[0]);
      ReplayCarries(Splice(flash, at, d[..n]), ps[1..], at + n, d[n..]);
      Consecutive(flash, at, d[..n], d[n..]);
      assert d[..n] + d[n..] == d;
    }
  }

  lemma {:induction false} ReplayConcat(flash: seq<byte>, ps: seq<Packet>, qs: seq<Packet>)
    requires |flash| == FLASH
    ensures Replay(flash, ps + qs) == Replay(Replay(flash, ps), qs)
    decreases |ps|
  {
    if ps == [] {
      assert ps + qs == qs;
    } else {
      assert (ps + qs)[1..] == ps[1..] + qs;
      var next := if |ps[0]| < META_LEN || AddrOf(ps[0]) + |ps[0]| - META_LEN > FLASH then flash
                  else Splice(flash, AddrOf(ps[0]), ps[0][META_LEN..]);
      ReplayConcat(next, ps[1..], qs);
    }
  }

  /** The last six bytes sent do not disturb the code: it ends below them, or agrees with them. */
  predicate TailHarmless(data: seq<byte>)
    requires MIN_SIZE <= |data| <= MAX_SIZE
  {
    forall i | LAST_PKT <= i < |data| - 8 && i < LAST_PKT + TAIL :: data[i] == data[|data| - 8 + (i - LAST_PKT)]
  }

  /** Replaying all packets puts the six tail bytes in place, and reproduces the
      code exactly when the tail does not clobber it. */
  lemma Programmed(flash: seq<byte>, code: seq<Packet>, tail: seq<Packet>, data: seq<byte>)
    requires |flash| == FLASH && MIN_SIZE <= |data| <= MAX_SIZE
    requires Carries(code, 0, data[..|data| - 8]) && Carries(tail, LAST_PKT, data[|data| - 8..|data| - 2])
    ensures var r, n := Replay(flash, code + tail), |data| - 8;
            && r[LAST_PKT..LAST_PKT + TAIL] == data[n..n + TAIL]
            && (r[..n] == data[..n] <==> TailHarmless(data))
            && (n <= LAST_PKT ==> r[..n] == data[..n])
  {
    hide Replay, Carries, Splice;
    var n := |data| - 8;
    ReplayConcat(flash, code, tail);
    ReplayCarries(flash, code, 0, data[..n]);
    ReplayCarries(Splice(flash, 0, data[..n]), tail, LAST_PKT, data[n..n + TAIL]);
    Clobber(flash, data, Replay(flash, code + tail));
  }

  /** Cell by cell, a code of `n` bytes followed by the tail. */
  lemma Cells(flash: seq<byte>, code: seq<byte>, tail: seq<byte>, i: nat)
    requires |flash| == FLASH && |code| <= MAX_SIZE && |tail| == TAIL && i < FLASH
    ensures Splice(Splice(flash, 0, code), LAST_PKT, tail)[i]
         == if LAST_PKT <= i < LAST_PKT + TAIL then tail[i - LAST_PKT] else if i < |code| then code[i] else flash[i]
  {}

  lemma Clobber(flash: seq<byte>, data: seq<byte>, r: seq<byte>)
    requires |flash| == FLASH && MIN_SIZE <= |data| <= MAX_SIZE
    requires r == Splice(Splice(flash, 0, data[..|data| - 8]), LAST_PKT, data[|data| - 8..|data| - 2])
    ensures r[LAST_PKT..LAST_PKT + TAIL] == data[|data| - 8..|data| - 2]
    ensures r[..|data| - 8] == data[..|data| - 8] <==> TailHarmless(data)
  {
    hide Splice;
    var n := |data| - 8;
    var code, tail := data[..n], data[n..n + TAIL];
    forall i | 0 <= i < FLASH
      ensures r[i] == if LAST_PKT <= i < LAST_PKT + TAIL then tail[i - LAST_PKT]
                      else if i < n then code[i] else flash[i]
    {
      Cells(flash, code, tail, i);
    }
    if r[..n] == code {
      forall i | LAST_PKT <= i < n && i < LAST_PKT + TAIL ensures data[i] == data[n + (i - LAST_PKT)] {
        assert r[..n][i] == code[i];
      }
    }
    if TailHarmless(data) {
      forall i | 0 <= i < n ensures r[i] == code[i] {}
      assert r[..n] == code;
    }
  }

  // ---- checksum ----

  function Xor8(a: byte, b: byte): (r: byte) {
    ZipBound(Xor, a, b, 8);
    assert Pow2(8) == 256;
    Zip(Xor, a, b, 8)
  }

  lemma Xor8Bit(a: byte, b: byte, i: nat)
    requires i < 8
    ensures Bit(Xor8(a, b), i) == (Bit(a, i) != Bit(b, i))
  {
    hide Zip, Bit;
    ZipBit(Xor, a, b, 8, i);
  }

  lemma ByteEq(a: byte, b: byte)
    requires forall i: nat | i < 8 :: Bit(a, i) == Bit(b, i)
    ensures a == b
  {
    assert Pow2(8) == 256;
    Extensional(a, b, 8);
  }

  lemma Xor8Assoc(a: byte, b: byte, c: byte)
    ensures Xor8(Xor8(a, b), c) == Xor8(a, Xor8(b, c))
  {
    hide Bit, Zip, Xor8;
    forall i: nat | i < 8 ensures Bit(Xor8(Xor8(a, b), c), i) == Bit(Xor8(a, Xor8(b, c)), i) {
      Xor8Bit(a, b, i);
      Xor8Bit(b, c, i);
      Xor8Bit(Xor8(a, b), c, i);
      Xor8Bit(a, Xor8(b, c), i);
    }
    ByteEq(Xor8(Xor8(a, b), c), Xor8(a, Xor8(b, c)));
  }

  lemma Xor8Laws(a: byte, b: byte)
    ensures Xor8(a, b) == Xor8(b, a) && Xor8(a, 0) == a && Xor8(a, a) == 0
  {
    hide Bit, Zip, Xor8;
    forall i: nat | i < 8
      ensures Bit(Xor8(a, b), i) == Bit(Xor8(b, a), i)
      ensures Bit(Xor8(a, 0), i) == Bit(a, i) && Bit(Xor8(a, a), i) == Bit(0, i)
    {
      Xor8Bit(a, b, i);
      Xor8Bit(b, a, i);
      Xor8Bit(a, 0, i);
      Xor8Bit(a, a, i);
      ZeroBit(i);
    }
    ByteEq(Xor8(a, b), Xor8(b, a));
    ByteEq(Xor8(a, 0), a);
    ByteEq(Xor8(a, a), 0);
  }

  /** XOR of all bytes. */
  function XorAll(s: seq<byte>): byte {
    if s == [] then 0 else Xor8(XorAll(s[..|s| - 1]), s[|s| - 1])
  }

  lemma XorSnoc(s: seq<byte>, b: byte)
    ensures XorAll(s + [b]) == Xor8(XorAll(s), b)
  {
    assert (s + [b])[..|s|] == s;
  }

  lemma {:induction false} XorConcat(s: seq<byte>, t: seq<byte>)
    ensures XorAll(s + t) == Xor8(XorAll(s), XorAll(t))
  {
    hide Xor8;
    if t == [] {
      assert s + t == s;
      Xor8Laws(XorAll(s), 0);
    } else {
      var init, b := t[..|t| - 1], t[|t| - 1];
      assert s + t == (s + init) + [b] && t == init + [b];
      XorSnoc(s + init, b);
      XorConcat(s, init);
      Xor8Assoc(XorAll(s), XorAll(init), b);
    }
  }

  /** FT_FW_CHECK: three complementary pairs among the last eight bytes. */
  predicate FwCheck(data: seq<byte>)
    requires |data| >= MIN_SIZE
  {
    var n := |data|;
    && Xor8(data[n - 8], data[n - 6]) == 0xFF
    && Xor8(data[n - 7], data[n - 5]) == 0xFF
    && Xor8(data[n - 3], data[n - 4]) == 0xFF
  }

  lemma {:induction false} NotBit(a: nat, w: nat, i: nat)
    requires a < Pow2(w) && i < w
    ensures Bit(Pow2(w) - 1 - a, i) == !Bit(a, i)
  {
    var rest := Pow2(w - 1) - 1 - a / 2;
    assert (Pow2(w) - 1 - a) / 2 == rest;
    if i > 0 { NotBit(a / 2, w - 1, i - 1); }
  }

  /** Two bytes have all bits different exactly when they add up to 255. */
  lemma Complement(a: byte, b: byte)
    ensures Xor8(a, b) == 0xFF <==> a + b == 255
  {
    hide Bit, Zip, Xor8;
    assert Pow2(8) == 256;
    forall i: nat | i < 8
      ensures Bit(Xor8(a, 255 - a), i) == Bit(0xFF, i) && Bit(255 - a, i) == !Bit(a, i)
      ensures Bit(0xFF, i) && Bit(Xor8(a, b), i) == (Bit(a, i) != Bit(b, i))
    {
      Xor8Bit(a, 255 - a, i);
      Xor8Bit(a, b, i);
      NotBit(a, 8, i);
      OnesBit(8, i);
    }
    ByteEq(Xor8(a, 255 - a), 0xFF);
    if Xor8(a, b) == 0xFF { ByteEq(b, 255 - a); }
  }

  /** The format check in numbers: of the eight bytes at the end, counted from 0, the
      pairs 0 and 2, 1 and 3, 4 and 5 add up to 255; the last two are free. */
  lemma FormatInNumbers(data: seq<byte>)
    requires |data| >= MIN_SIZE
    ensures var t := data[|data| - 8..];
            FwCheck(data) <==> t[2] == 255 - t[0] && t[3] == 255 - t[1] && t[5] == 255 - t[4]
  {
    hide Xor8;
    var n := |data|;
    Complement(data[n - 8], data[n - 6]);
    Complement(data[n - 7], data[n - 5]);
    Complement(data[n - 3], data[n - 4]);
  }

  /** The pairs cover exactly the six tail bytes. */
  lemma PairsCancel(a: byte, b: byte, c: byte, d: byte, e: byte, f: byte)
    requires Xor8(a, c) == 0xFF && Xor8(b, d) == 0xFF && Xor8(f, e) == 0xFF
    ensures XorAll([a, b, c, d, e, f]) == 0xFF
  {
    hide Bit, Zip, Xor8;
    var x := XorAll([a, b, c, d, e, f]);
    SixXor(a, b, c, d, e, f);
    forall i: nat | i < 8 ensures Bit(x, i) == Bit(0xFF, i) {
      Xor8Bit(a, c, i);
      Xor8Bit(b, d, i);
      Xor8Bit(f, e, i);
      var p := Xor8(a, b);
      Xor8Bit(a, b, i);
      var q := Xor8(p, c);
      Xor8Bit(p, c, i);
      var r := Xor8(q, d);
      Xor8Bit(q, d, i);
      var s := Xor8(r, e);
      Xor8Bit(r, e, i);
      Xor8Bit(s, f, i);
    }
    ByteEq(x, 0xFF);
  }

  lemma SixXor(a: byte, b: byte, c: byte, d: byte, e: byte, f: byte)
    ensures XorAll([a, b, c, d, e, f]) == Xor8(Xor8(Xor8(Xor8(Xor8(a, b), c), d), e), f)
  {
    hide Xor8;
    assert [] + [a] == [a] && [a] + [b] == [a, b] && [a, b] + [c] == [a, b, c];
    assert [a, b, c] + [d] == [a, b, c, d] && [a, b, c, d] + [e] == [a, b, c, d, e];
    assert [a, b, c, d, e] + [f] == [a, b, c, d, e, f];
    XorSnoc([], a);
    Xor8Laws(a, 0);
    Xor8Laws(0, a);
    XorSnoc([a], b);
    XorSnoc([a, b], c);
    XorSnoc([a, b, c], d);
    XorSnoc([a, b, c, d], e);
    XorSnoc([a, b, c, d, e], f);
  }

  /** The checksum of everything sent is the complement of the checksum of the code alone. */
  lemma EccOfChecked(data: seq<byte>)
    requires |data| >= MIN_SIZE && FwCheck(data)
    ensures XorAll(data[..|data| - 2]) == Xor8(0xFF, XorAll(data[..|data| - 8]))
  {
    hide Xor8, XorAll;
    var n := |data| - 8;
    var t := [data[n], data[n + 1], data[n + 2], data[n + 3], data[n + 4], data[n + 5]];
    assert data[..n + 6] == data[..n] + t;
    XorConcat(data[..n], t);
    PairsCancel(data[n], data[n + 1], data[n + 2], data[n + 3], data[n + 4], data[n + 5]);
    Xor8Laws(XorAll(data[..n]), 0xFF);
  }

  // ---- the driver ----

  /** Bytes 2 to 5 of the packet buffer: address and length, high byte first, each cut to a u8. */
  method SetHeader(buf: array<byte>, addr: nat, len: nat)
    requires buf.Length == PKT_LEN + META_LEN && addr < 0x10000 && len < 0x10000
    modifies buf
    ensures buf[0] == old(buf[0]) && buf[1] == old(buf[1])
    ensures Be16(buf[2], buf[3]) == addr && Be16(buf[4], buf[5]) == len
    ensures buf[2..6] == [addr / 256, addr % 256, len / 256, len % 256]
  {
    buf[2], buf[3] := addr / 256 % 256, addr % 256;
    buf[4], buf[5] := len / 256 % 256, len % 256;
  }

  /** The copy loops: payload into the buffer, and into the running checksum. */
  method CopyPayload(buf: array<byte>, data: seq<byte>, at: nat, n: nat, ecc0: byte) returns (ecc: byte)
    requires buf.Length == PKT_LEN + META_LEN && n <= PKT_LEN && at + n <= |data| && ecc0 == XorAll(data[..at])
    modifies buf
    ensures forall i | 0 <= i < META_LEN :: buf[i] == old(buf[i])
    ensures buf[META_LEN..META_LEN + n] == data[at..at + n] && ecc == XorAll(data[..at + n])
  {
    hide Xor8, XorAll;
    ecc := ecc0;
    var j := 0;
    while j < n
      invariant 0 <= j <= n && forall i | 0 <= i < META_LEN :: buf[i] == old(buf[i])
      invariant buf[META_LEN..META_LEN + j] == data[at..at + j] && ecc == XorAll(data[..at + j])
    {
      ghost var done := buf[META_LEN..META_LEN + j];
      buf[META_LEN + j] := data[at + j];
      assert buf[META_LEN..META_LEN + j + 1] == done + [data[at + j]];
      assert data[at..at + j + 1] == data[at..at + j] + [data[at + j]];
      XorSnoc(data[..at + j], data[at + j]);
      assert data[..at + j + 1] == data[..at + j] + [data[at + j]];
      ecc := Xor8(ecc, buf[META_LEN + j]);
      j := j + 1;
    }
  }

  /** One packet: header, payload, write. */
  method Send(buf: array<byte>, data: seq<byte>, at: nat, n: nat, addr: nat, ecc0: byte)
    returns (p: Packet, ecc: byte)
    requires buf.Length == PKT_LEN + META_LEN && 0 < n <= PKT_LEN && at + n <= |data| && addr < 0x10000
    requires buf[0] == START_REG && buf[1] == 0 && ecc0 == XorAll(data[..at])
    modifies buf
    ensures buf[0] == START_REG && buf[1] == 0
    ensures Sound(p) && AddrOf(p) == addr && p[META_LEN..] == data[at..at + n] && ecc == XorAll(data[..at + n])
    ensures p[..6] == [0xBF, 0, addr / 256, addr % 256, n / 256, n % 256]
  {
    hide XorAll;
    SetHeader(buf, addr, n);
    ecc := CopyPayload(buf, data, at, n, ecc0);
    p := buf[..META_LEN + n];
    assert p[META_LEN..] == buf[META_LEN..META_LEN + n];
  }

  /** The programming part of ft5x06_fw_upgrade_start: whole packets, the rest, six single bytes. */
  method Program(data: seq<byte>) returns (code: seq<Packet>, tail: seq<Packet>, ecc: byte)
    requires MIN_SIZE <= |data| <= MAX_SIZE
    ensures Carries(code, 0, data[..|data| - 8])
    ensures Carries(tail, LAST_PKT, data[|data| - 8..|data| - 2])
    ensures ecc == XorAll(data[..|data| - 2])
    ensures |code| == (|data| - 8 + PKT_LEN - 1) / PKT_LEN && |tail| == TAIL
  {
    hide XorAll, Carries, Sound, AddrOf, LenOf;
    var buf := new byte[PKT_LEN + META_LEN];
    var len := |data| - 8;
    var pktNum := len / PKT_LEN;
    buf[0], buf[1] := START_REG, 0;
    EmptyStream(data);
    code, tail, ecc := [], [], 0;
    var i := 0;
    var p;
    while i < pktNum
      invariant 0 <= i <= pktNum && buf[0] == START_REG && buf[1] == 0
      invariant |code| == i
      invariant Carries(code, 0, data[..i * PKT_LEN]) && ecc == XorAll(data[..i * PKT_LEN])
    {
      p, ecc := Send(buf, data, i * PKT_LEN, PKT_LEN, i * PKT_LEN, ecc);
      CarriesSnoc(code, 0, data[..i * PKT_LEN], p);
      Glue(data, 0, i * PKT_LEN, (i + 1) * PKT_LEN);
      code := code + [p];
      i := i + 1;
    }
    if len % PKT_LEN > 0 {
      p, ecc := Send(buf, data, pktNum * PKT_LEN, len % PKT_LEN, pktNum * PKT_LEN, ecc);
      CarriesSnoc(code, 0, data[..pktNum * PKT_LEN], p);
      Glue(data, 0, pktNum * PKT_LEN, len);
      code := code + [p];
    }
    i := 0;
    assert data[len..len + i] == [];
    while i < TAIL
      invariant 0 <= i <= TAIL && buf[0] == START_REG && buf[1] == 0
      invariant |tail| == i
      invariant Carries(tail, LAST_PKT, data[len..len + i]) && ecc == XorAll(data[..len + i])
    {
      p, ecc := Send(buf, data, len + i, 1, LAST_PKT + i, ecc);
      CarriesSnoc(tail, LAST_PKT, data[len..len + i], p);
      Glue(data, len, len + i, len + i + 1);
      tail := tail + [p];
      i := i + 1;
    }
  }

  lemma EmptyStream(data: seq<byte>)
    ensures Carries([], 0, data[..0]) && Carries([], LAST_PKT, []) && XorAll(data[..0]) == 0
  {}

  /** ft5x06_fw_upgrade.  `entered` is the outcome of the upgrade-mode handshake
      and `devEcc` the checksum the device reports.  The file has no minor
      versions, so without `force` the version test never lets an upgrade start. */
  method FwUpgrade(fw: seq<byte>, force: bool, ver: (byte, byte, byte), entered: bool, devEcc: byte)
    returns (rc: int, code: seq<Packet>, tail: seq<Packet>)
    ensures !(MIN_SIZE <= |fw| <= MAX_SIZE) ==> rc == EIO
    ensures MIN_SIZE <= |fw| <= MAX_SIZE && !force ==> rc == EFAULT
    ensures rc == 0 <==> MIN_SIZE <= |fw| <= MAX_SIZE && force && FwCheck(fw) && entered &&
                         devEcc == Xor8(0xFF, XorAll(fw[..|fw| - 8]))
    ensures rc == 0 ==> Carries(code, 0, fw[..|fw| - 8]) && Carries(tail, LAST_PKT, fw[|fw| - 8..|fw| - 2])
    ensures code != [] || tail != [] ==> MIN_SIZE <= |fw| <= MAX_SIZE && force && FwCheck(fw)
  {
    hide Xor8, XorAll, Carries;
    code, tail := [], [];
    if |fw| < MIN_SIZE || |fw| > MAX_SIZE { return EIO, code, tail; }
    var maj, min, sub := fw[|fw| - 2], 0, 0;
    var upgrade := false;
    if force {
      upgrade := true;
    } else if ver.0 == maj {
      if ver.1 < min { upgrade := true; } else if ver.2 < sub { upgrade := true; }
    }
    if !upgrade { return EFAULT, code, tail; }
    if !FwCheck(fw) { return EIO, code, tail; }
    if !entered { return EIO, code, tail; }
    var ecc;
    code, tail, ecc := Program(fw);
    EccOfChecked(fw);
    rc := if devEcc != ecc then EIO else 0;
  }

  /** A well-formed file whose tail differs from its code in every byte. */
  function LongImage(n: nat): (fw: seq<byte>)
    ensures |fw| == n + 8
  {
    seq(n, _ => 0x55 as byte) + [0, 0, 0xFF, 0xFF, 0, 0xFF, 0, 0]
  }

  lemma LongImagePasses(n: nat)
    requires n <= MAX_SIZE - 8
    ensures FwCheck(LongImage(n)) && (TailHarmless(LongImage(n)) <==> n <= LAST_PKT)
  {
    hide Xor8;
    var fw := LongImage(n);
    Xor8Laws(0xFF, 0);
    assert fw[n..] == [0, 0, 0xFF, 0xFF, 0, 0xFF, 0, 0];
    assert n > LAST_PKT ==> fw[LAST_PKT] == 0x55;
  }

  /** For every code that reaches beyond 0x6ffa there is a file with which the
      upgrade reports success and leaves a code that is not the file's. */
  method ClobberedUpgrade(n: nat, flash: seq<byte>)
    returns (fw: seq<byte>, rc: int, code: seq<Packet>, tail: seq<Packet>)
    requires LAST_PKT < n <= MAX_SIZE - 8 && |flash| == FLASH
    ensures |fw| == n + 8 && FwCheck(fw) && rc == 0
    ensures Carries(code, 0, fw[..n]) && Carries(tail, LAST_PKT, fw[n..n + TAIL])
    ensures Replay(flash, code + tail)[..n] != fw[..n]
  {
    hide Xor8, XorAll, Carries, Replay, LongImage, FwCheck, TailHarmless;
    fw := LongImage(n);
    LongImagePasses(n);
    rc, code, tail := FwUpgrade(fw, true, (0, 0, 0), true, Xor8(0xFF, XorAll(fw[..|fw| - 8])));
    Programmed(flash, code, tail, fw);
  }
}
