/** endian.h: the htole/le..toh macros, on a little-endian and on a big-endian host. */
module Endian {
  import opened Bytes

  datatype ByteOrder = Little | Big

  /** The `width` low-order bytes of `n`, least significant first: the wire form of every integer. */
  function LeBytes(n: nat, width: nat): (s: seq<Byte>)
    ensures |s| == width
    decreases width, n
  {
    if width == 0 then [] else [n % 0x100] + LeBytes(n / 0x100, width - 1)
  }

  function FromLe(s: seq<Byte>): nat
  {
    if s == [] then 0 else s[0] + 0x100 * FromLe(s[1..])
  }

  function Pow256(width: nat): nat
  {
    if width == 0 then 1 else 0x100 * Pow256(width - 1)
  }

  lemma Pow256Values()
    ensures Pow256(2) == 0x1_0000
    ensures Pow256(4) == 0x1_0000_0000
    ensures Pow256(8) == 0x1_0000_0000_0000_0000
  {
    assert Pow256(5) == 0x100 * Pow256(4);
    assert Pow256(6) == 0x100 * Pow256(5);
    assert Pow256(7) == 0x100 * Pow256(6);
  }

  lemma {:induction false} FromLeBytes(n: nat, width: nat)
    requires n < Pow256(width)
    ensures FromLe(LeBytes(n, width)) == n
  {
    if width > 0 {
      FromLeBytes(n / 0x100, width - 1);
      assert LeBytes(n, width)[1..] == LeBytes(n / 0x100, width - 1);
    }
  }

  lemma {:induction false} LeBytesFromLe(s: seq<Byte>)
    ensures FromLe(s) < Pow256(|s|)
    ensures LeBytes(FromLe(s), |s|) == s
  {
    if s != [] {
      var n, rest := FromLe(s), FromLe(s[1..]);
      LeBytesFromLe(s[1..]);
      LowDigit(n, s[0], rest);
      assert LeBytes(n, |s|) == [s[0]] + LeBytes(rest, |s| - 1) == [s[0]] + s[1..];
    }
  }

  // The macros of endian.h:27-43, with each mask-and-shift read as division and remainder.

  function BSwap16(x: U16): U16
  {
    var n := x as int;
    n / 0x100 + n % 0x100 * 0x100
  }

  function BSwap32(x: U32): U32
  {
    var n := x as int;
    n / 0x100_0000 + n / 0x1_0000 % 0x100 * 0x100 + n / 0x100 % 0x100 * 0x1_0000 + n % 0x100 * 0x100_0000
  }

  function BSwap64(x: U64): U64
  {
    BSwap32(x / 0x1_0000_0000) as int + BSwap32(x % 0x1_0000_0000) as int * 0x1_0000_0000
  }

  function HToLe16(order: ByteOrder, x: U16): U16 { if order.Big? then BSwap16(x) else x }

  function HToLe32(order: ByteOrder, x: U32): U32 { if order.Big? then BSwap32(x) else x }

  function HToLe64(order: ByteOrder, x: U64): U64 { if order.Big? then BSwap64(x) else x }

  function LeToH16(order: ByteOrder, x: U16): U16 { if order.Big? then BSwap16(x) else x }

  function LeToH32(order: ByteOrder, x: U32): U32 { if order.Big? then BSwap32(x) else x }

  function LeToH64(order: ByteOrder, x: U64): U64 { if order.Big? then BSwap64(x) else x }

  /** The bytes a host of the given order keeps in memory for a word. */
  function Image(order: ByteOrder, word: nat, width: nat): (s: seq<Byte>)
    ensures |s| == width
  {
    if order.Little? then LeBytes(word, width) else Reverse(LeBytes(word, width))
  }

  /** The word a host of the given order reads from bytes in memory. */
  function Word(order: ByteOrder, s: seq<Byte>): nat
  {
    if order.Little? then FromLe(s) else FromLe(Reverse(s))
  }

  lemma FromLe2(s: seq<Byte>)
    requires |s| == 2
    ensures FromLe(s) == s[0] as int + 0x100 * s[1] as int
  {
    assert FromLe(s[1..]) == s[1];
  }

  lemma FromLe4(s: seq<Byte>)
    requires |s| == 4
    ensures FromLe(s) == s[0] as int + 0x100 * s[1] as int + 0x1_0000 * s[2] as int + 0x100_0000 * s[3] as int
  {
    FromLe2(s[1..][1..]);
  }

  /** The macro moves every byte to the mirrored place. */
  lemma BSwapMirrors16(s: seq<Byte>)
    requires |s| == 2
    ensures FromLe(s) < 0x1_0000
    ensures BSwap16(FromLe(s)) == FromLe(Reverse(s))
  {
    hide FromLe, BSwap16;
    FromLe2(s);
    FromLe2(Reverse(s));
    BSwapDigits16(s[0], s[1]);
  }

  lemma BSwapMirrors32(s: seq<Byte>)
    requires |s| == 4
    ensures FromLe(s) < 0x1_0000_0000
    ensures BSwap32(FromLe(s)) == FromLe(Reverse(s))
  {
    hide FromLe, BSwap32;
    FromLe4(s);
    FromLe4(Reverse(s));
    BSwapDigits32(s[0], s[1], s[2], s[3]);
  }

  lemma BSwapDigits16(b0: nat, b1: nat)
    requires b0 < 0x100 && b1 < 0x100
    ensures BSwap16(b0 + 0x100 * b1) == b1 + 0x100 * b0
  {
    LowDigit(b0 + 0x100 * b1, b0, b1);
  }

  lemma BSwapDigits32(b0: nat, b1: nat, b2: nat, b3: nat)
    requires b0 < 0x100 && b1 < 0x100 && b2 < 0x100 && b3 < 0x100
    ensures BSwap32(b0 + 0x100 * b1 + 0x1_0000 * b2 + 0x100_0000 * b3)
            == b3 + 0x100 * b2 + 0x1_0000 * b1 + 0x100_0000 * b0
  {
    Digits32(b0, b1, b2, b3);
  }

  lemma Quotients(n: nat)
    ensures n / 0x1_0000 == n / 0x100 / 0x100
    ensures n / 0x100_0000 == n / 0x100 / 0x100 / 0x100
  {
  }

  lemma LowDigit(n: nat, digit: nat, rest: nat)
    requires digit < 0x100 && n == digit + 0x100 * rest
    ensures n % 0x100 == digit && n / 0x100 == rest
  {
  }

  lemma Digits32(b0: nat, b1: nat, b2: nat, b3: nat)
    requires b0 < 0x100 && b1 < 0x100 && b2 < 0x100 && b3 < 0x100
    ensures var x := b0 + 0x100 * b1 + 0x1_0000 * b2 + 0x100_0000 * b3;
            && x % 0x100 == b0
            && x / 0x100 % 0x100 == b1
            && x / 0x1_0000 % 0x100 == b2
            && x / 0x100_0000 == b3
  {
    var y := b2 + 0x100 * b3;
    var z := b1 + 0x100 * y;
    Quotients(b0 + 0x100 * z);
    LowDigit(b0 + 0x100 * z, b0, z);
    LowDigit(z, b1, y);
    LowDigit(y, b2, b3);
  }

  lemma BSwapReverses16(x: U16)
    ensures LeBytes(BSwap16(x), 2) == Reverse(LeBytes(x, 2))
  {
    hide LeBytes, FromLe, BSwap16, Reverse;
    var s := LeBytes(x, 2);
    Pow256Values();
    FromLeBytes(x, 2);
    BSwapMirrors16(s);
    LeBytesFromLe(Reverse(s));
  }

  lemma BSwapReverses32(x: U32)
    ensures LeBytes(BSwap32(x), 4) == Reverse(LeBytes(x, 4))
  {
    hide LeBytes, FromLe, BSwap32, Reverse;
    var s := LeBytes(x, 4);
    Pow256Values();
    FromLeBytes(x, 4);
    BSwapMirrors32(s);
    LeBytesFromLe(Reverse(s));
  }

  lemma LePeel(n: nat, digit: nat, rest: nat, width: nat)
    requires digit < 0x100 && n == digit + 0x100 * rest
    ensures LeBytes(n, width + 1) == [digit] + LeBytes(rest, width)
  {
    LowDigit(n, digit, rest);
  }

  lemma {:induction false} LeShift(lo: nat, hi: nat, unit: nat, width: nat, more: nat)
    requires unit == 0x100 || unit == 0x1_0000 || unit == 0x100_0000 || unit == 0x1_0000_0000
    requires width == if unit == 0x100 then 1 else if unit == 0x1_0000 then 2 else if unit == 0x100_0000 then 3 else 4
    requires lo < unit
    ensures LeBytes(lo + unit * hi, width + more) == LeBytes(lo, width) + LeBytes(hi, more)
    decreases unit
  {
    hide LeBytes;
    var rest := lo / 0x100;
    LePeel(lo, lo % 0x100, rest, width - 1);
    if unit == 0x100 {
      LePeel(lo + 0x100 * hi, lo, hi, more);
      LeNone(rest);
    } else {
      var unit' := if unit == 0x1_0000 then 0x100 else if unit == 0x100_0000 then 0x1_0000 else 0x100_0000;
      LeShift(rest, hi, unit', width - 1, more);
      LePeel(lo + unit * hi, lo % 0x100, rest + unit' * hi, width - 1 + more);
    }
  }

  lemma LeNone(n: nat)
    ensures LeBytes(n, 0) == []
  {
  }

  lemma Le8(lo: U32, hi: U32)
    ensures LeBytes(lo as int + hi as int * 0x1_0000_0000, 8) == LeBytes(lo, 4) + LeBytes(hi, 4)
  {
    hide LeBytes;
    LeShift(lo, hi, 0x1_0000_0000, 4, 4);
  }

  lemma ReverseHalves(lo: U32, hi: U32, lo': U32, hi': U32)
    requires LeBytes(lo', 4) == Reverse(LeBytes(lo, 4)) && LeBytes(hi', 4) == Reverse(LeBytes(hi, 4))
    ensures LeBytes(hi' as int + lo' as int * 0x1_0000_0000, 8)
            == Reverse(LeBytes(lo as int + hi as int * 0x1_0000_0000, 8))
  {
    hide LeBytes;
    Le8(lo, hi);
    Le8(hi', lo');
    assert Reverse(LeBytes(lo, 4) + LeBytes(hi, 4)) == LeBytes(hi', 4) + LeBytes(lo', 4);
  }

  lemma BSwapReverses64(x: U64)
    ensures LeBytes(BSwap64(x), 8) == Reverse(LeBytes(x, 8))
  {
    hide LeBytes, BSwap32;
    BSwapReverses32(x % 0x1_0000_0000);
    BSwapReverses32(x / 0x1_0000_0000);
    ReverseHalves(x % 0x1_0000_0000, x / 0x1_0000_0000,
                  BSwap32(x % 0x1_0000_0000), BSwap32(x / 0x1_0000_0000));
  }

  /** Storing htole32(x) puts the little-endian wire form in memory on either host; likewise 16 and 64 bits. */
  lemma StoreLe32Image(order: ByteOrder, x: U32)
    ensures Image(order, HToLe32(order, x), 4) == LeBytes(x, 4)
  {
    hide LeBytes, BSwap32;
    BSwapReverses32(x);
    assert Reverse(Reverse(LeBytes(x, 4))) == LeBytes(x, 4);
  }

  lemma StoreLe16Image(order: ByteOrder, x: U16)
    ensures Image(order, HToLe16(order, x), 2) == LeBytes(x, 2)
  {
    hide LeBytes, BSwap16;
    BSwapReverses16(x);
    assert Reverse(Reverse(LeBytes(x, 2))) == LeBytes(x, 2);
  }

  lemma StoreLe64Image(order: ByteOrder, x: U64)
    ensures Image(order, HToLe64(order, x), 8) == LeBytes(x, 8)
  {
    hide LeBytes, BSwap64;
    BSwapReverses64(x);
    assert Reverse(Reverse(LeBytes(x, 8))) == LeBytes(x, 8);
  }

  /** Reading a wire field and applying le32toh gives its little-endian value on either host. */
  lemma LoadLe32(order: ByteOrder, s: seq<Byte>)
    requires |s| == 4
    ensures Word(order, s) < 0x1_0000_0000
    ensures LeToH32(order, Word(order, s)) == FromLe(s)
  {
    hide LeBytes, FromLe, BSwap32, Reverse;
    Pow256Values();
    LeBytesFromLe(s);
    LeBytesFromLe(Reverse(s));
    if order.Big? {
      var w := FromLe(Reverse(s));
      BSwapReverses32(w);
      assert LeBytes(BSwap32(w), 4) == s;
      FromLeBytes(BSwap32(w), 4);
    }
  }

  lemma LoadLe16(order: ByteOrder, s: seq<Byte>)
    requires |s| == 2
    ensures Word(order, s) < 0x1_0000
    ensures LeToH16(order, Word(order, s)) == FromLe(s)
  {
    hide LeBytes, FromLe, BSwap16, Reverse;
    Pow256Values();
    LeBytesFromLe(s);
    LeBytesFromLe(Reverse(s));
    if order.Big? {
      var w := FromLe(Reverse(s));
      BSwapReverses16(w);
      assert LeBytes(BSwap16(w), 2) == s;
      FromLeBytes(BSwap16(w), 2);
    }
  }

  lemma LoadLe64(order: ByteOrder, s: seq<Byte>)
    requires |s| == 8
    ensures Word(order, s) < 0x1_0000_0000_0000_0000
    ensures LeToH64(order, Word(order, s)) == FromLe(s)
  {
    hide LeBytes, FromLe, BSwap64, Reverse;
    Pow256Values();
    LeBytesFromLe(s);
    LeBytesFromLe(Reverse(s));
    if order.Big? {
      var w := FromLe(Reverse(s));
      BSwapReverses64(w);
      assert LeBytes(BSwap64(w), 8) == s;
      FromLeBytes(BSwap64(w), 8);
    }
  }

  lemma BSwapInvolution16(x: U16)
    ensures BSwap16(BSwap16(x)) == x
  {
    hide LeBytes, FromLe, BSwap16, Reverse;
    Pow256Values();
    BSwapReverses16(x);
    BSwapReverses16(BSwap16(x));
    assert LeBytes(BSwap16(BSwap16(x)), 2) == LeBytes(x, 2);
    FromLeBytes(BSwap16(BSwap16(x)), 2);
    FromLeBytes(x, 2);
  }

  lemma BSwapInvolution32(x: U32)
    ensures BSwap32(BSwap32(x)) == x
  {
    hide LeBytes, FromLe, BSwap32, Reverse;
    Pow256Values();
    BSwapReverses32(x);
    BSwapReverses32(BSwap32(x));
    assert LeBytes(BSwap32(BSwap32(x)), 4) == LeBytes(x, 4);
    FromLeBytes(BSwap32(BSwap32(x)), 4);
    FromLeBytes(x, 4);
  }

  lemma BSwapInvolution64(x: U64)
    ensures BSwap64(BSwap64(x)) == x
  {
    hide LeBytes, FromLe, BSwap64, Reverse;
    Pow256Values();
    BSwapReverses64(x);
    BSwapReverses64(BSwap64(x));
    assert LeBytes(BSwap64(BSwap64(x)), 8) == LeBytes(x, 8);
    FromLeBytes(BSwap64(BSwap64(x)), 8);
    FromLeBytes(x, 8);
  }

  // Integer fields inside received bytes: by their little-endian value, and as the host's code reads them.

  function U16At(s: seq<Byte>, off: nat): (x: U16)
    requires off + 2 <= |s|
  {
    Pow256Values();
    LeBytesFromLe(s[off..off + 2]);
    FromLe(s[off..off + 2])
  }

  function U32At(s: seq<Byte>, off: nat): (x: U32)
    requires off + 4 <= |s|
  {
    Pow256Values();
    LeBytesFromLe(s[off..off + 4]);
    FromLe(s[off..off + 4])
  }

  function U64At(s: seq<Byte>, off: nat): (x: U64)
    requires off + 8 <= |s|
  {
    Pow256Values();
    LeBytesFromLe(s[off..off + 8]);
    FromLe(s[off..off + 8])
  }

  function Load16(order: ByteOrder, s: seq<Byte>, off: nat): (x: U16)
    requires off + 2 <= |s|
    ensures x == U16At(s, off)
  {
    LoadLe16(order, s[off..off + 2]);
    LeToH16(order, Word(order, s[off..off + 2]))
  }

  function Load32(order: ByteOrder, s: seq<Byte>, off: nat): (x: U32)
    requires off + 4 <= |s|
    ensures x == U32At(s, off)
  {
    LoadLe32(order, s[off..off + 4]);
    LeToH32(order, Word(order, s[off..off + 4]))
  }

  function Load64(order: ByteOrder, s: seq<Byte>, off: nat): (x: U64)
    requires off + 8 <= |s|
    ensures x == U64At(s, off)
  {
    LoadLe64(order, s[off..off + 8]);
    LeToH64(order, Word(order, s[off..off + 8]))
  }

  /** A field written as LeBytes and cut out again. */
  lemma U32AtLe(s: seq<Byte>, off: nat, x: U32)
    requires off + 4 <= |s| && s[off..off + 4] == LeBytes(x, 4)
    ensures U32At(s, off) == x
  {
    Pow256Values();
    FromLeBytes(x, 4);
  }

  lemma U64AtLe(s: seq<Byte>, off: nat, x: U64)
    requires off + 8 <= |s| && s[off..off + 8] == LeBytes(x, 8)
    ensures U64At(s, off) == x
  {
    Pow256Values();
    FromLeBytes(x, 8);
  }
}
