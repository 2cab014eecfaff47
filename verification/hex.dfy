/** hex2bin.c: hexadecimal text to bytes. */
module Hex {
  import opened Bytes

  predicate IsHexDigit(c: char)
  {
    '0' <= c <= '9' || 'A' <= c <= 'F' || 'a' <= c <= 'f'
  }

  predicate IsHexText(s: string)
  {
    |s| > 0 && |s| % 2 == 0 && forall i :: 0 <= i < |s| ==> IsHexDigit(s[i])
  }

  /** Lower-case printing, two digits a byte. */
  function Digit(n: nat): char
    requires n < 16
  {
    if n < 10 then '0' + n as char else 'a' + (n - 10) as char
  }

  function Print(b: seq<Byte>): (s: string)
    ensures |s| == 2 * |b|
  {
    seq(2 * |b|, i requires 0 <= i < 2 * |b| => Digit(if i % 2 == 0 then b[i / 2] / 16 else b[i / 2] % 16))
  }

  function Lower(c: char): char
  {
    if 'A' <= c <= 'F' then 'a' + (c - 'A') else c
  }

  function LowerAll(s: string): (r: string)
    ensures |r| == |s|
  {
    seq(|s|, i requires 0 <= i < |s| => Lower(s[i]))
  }

  /** hex2bin.c:22-35; out is only written on success. */
  method Hexchr2Bin(hex: char) returns (ok: bool, out: Byte)
    ensures ok == IsHexDigit(hex)
    ensures ok ==> out < 16 && Digit(out) == Lower(hex)
  {
    out := 0;
    if '0' <= hex <= '9' {
      out := (hex - '0') as int;
    } else if 'A' <= hex <= 'F' {
      out := (hex - 'A') as int + 10;
    } else if 'a' <= hex <= 'f' {
      out := (hex - 'a') as int + 10;
    } else {
      return false, out;
    }
    ok := true;
  }

  /**
   * hex2bin.c:37-59. The number of bytes is half the text's length exactly for non-empty text of even length that
   * is all hex digits, and then printing the bytes gives the text back up to letter case; otherwise it is 0.
   */
  method Hexs2Bin(hex: string) returns (len: nat, out: array<Byte>)
    ensures len == if IsHexText(hex) then |hex| / 2 else 0
    ensures IsHexText(hex) ==> out.Length == len && Print(out[..]) == LowerAll(hex)
  {
    if |hex| == 0 || |hex| % 2 != 0 {
      out := new Byte[0];
      return 0, out;
    }
    len := |hex| / 2;
    out := new Byte[len](_ => 'A' as int);
    var i := 0;
    while i < len
      invariant 0 <= i <= len && len == |hex| / 2 && out.Length == len
      invariant forall j :: 0 <= j < 2 * i ==> IsHexDigit(hex[j])
      invariant forall j :: 0 <= j < i ==>
                  Digit(out[j] / 16) == Lower(hex[2 * j]) && Digit(out[j] % 16) == Lower(hex[2 * j + 1])
    {
      var ok1, b1 := Hexchr2Bin(hex[i * 2]);
      if !ok1 {
        return 0, out;
      }
      var ok2, b2 := Hexchr2Bin(hex[i * 2 + 1]);
      if !ok2 {
        return 0, out;
      }
      out[i] := b1 * 16 + b2;
      i := i + 1;
    }
    PrintBack(out[..], hex);
  }

  lemma PrintBack(b: seq<Byte>, hex: string)
    requires |hex| == 2 * |b|
    requires forall j :: 0 <= j < |b| ==>
               Digit(b[j] / 16) == Lower(hex[2 * j]) && Digit(b[j] % 16) == Lower(hex[2 * j + 1])
    ensures Print(b) == LowerAll(hex)
  {
    forall i | 0 <= i < |hex|
      ensures Print(b)[i] == LowerAll(hex)[i]
    {
      var j := i / 2;
      assert i == 2 * j || i == 2 * j + 1;
    }
  }

  /** Different bytes print differently, so the text decides the bytes: Hexs2Bin has one possible result. */
  lemma PrintInjective(a: seq<Byte>, b: seq<Byte>)
    requires Print(a) == Print(b)
    ensures a == b
  {
    assert |Print(a)| == 2 * |a| && |Print(b)| == 2 * |b|;
    forall j | 0 <= j < |a|
      ensures a[j] == b[j]
    {
      assert Print(a)[2 * j] == Digit(a[j] / 16) && Print(a)[2 * j + 1] == Digit(a[j] % 16);
      assert Print(b)[2 * j] == Digit(b[j] / 16) && Print(b)[2 * j + 1] == Digit(b[j] % 16);
      DigitInjective(a[j] / 16, b[j] / 16);
      DigitInjective(a[j] % 16, b[j] % 16);
    }
  }

  lemma DigitInjective(m: nat, n: nat)
    requires m < 16 && n < 16 && Digit(m) == Digit(n)
    ensures m == n
  {
    assert Digit(m) as int == if m < 10 then '0' as int + m else 'a' as int + m - 10;
    assert Digit(n) as int == if n < 10 then '0' as int + n else 'a' as int + n - 10;
  }
}
