/** Bytes, fixed-width words and the few sequence operations every other module uses. */
module Bytes {
  type Byte = x: int | 0 <= x < 0x100
  type U16 = x: int | 0 <= x < 0x1_0000
  type U32 = x: int | 0 <= x < 0x1_0000_0000
  type U64 = x: int | 0 <= x < 0x1_0000_0000_0000_0000

  datatype Option<+T> = None | Some(value: T)

  /** The 32 bits of a C `int32_t`: two's complement. */
  function Bits32(x: int): U32 { x % 0x1_0000_0000 }

  function Min(a: int, b: int): int { if a < b then a else b }

  function Zeros(n: nat): (s: seq<Byte>)
    ensures |s| == n
  {
    seq(n, _ => 0)
  }

  function Reverse(s: seq<Byte>): (r: seq<Byte>)
    ensures |r| == |s|
    ensures forall i :: 0 <= i < |s| ==> r[i] == s[|s| - 1 - i]
  {
    seq(|s|, i requires 0 <= i < |s| => s[|s| - 1 - i])
  }

  /** `bytes` written over `s` at offset `off`. */
  function Splice(s: seq<Byte>, off: nat, bytes: seq<Byte>): (r: seq<Byte>)
    requires off + |bytes| <= |s|
    ensures |r| == |s|
  {
    s[..off] + bytes + s[off + |bytes|..]
  }

  /** Filling a buffer front to back: `done` is in place over `before`, the next store lands right behind it. */
  lemma FillNext(before: seq<Byte>, done: seq<Byte>, next: seq<Byte>)
    requires |done| + |next| <= |before|
    ensures Splice(done + before[|done|..], |done|, next) == (done + next) + before[|done + next|..]
  {
  }

  lemma SpliceBehind(s: seq<Byte>, start: nat, off: nat, bytes: seq<Byte>)
    requires start <= off && off + |bytes| <= |s|
    ensures Splice(s, off, bytes)[..start] == s[..start]
    ensures Splice(s, off, bytes)[start..] == Splice(s[start..], off - start, bytes)
  {
  }

  lemma SliceOfSlice(s: seq<Byte>, a: nat, b: nat, c: nat, d: nat)
    requires a <= b <= |s| && c <= d <= b - a
    ensures s[a..b][c..d] == s[a + c..a + d]
  {
    assert forall i :: 0 <= i < d - c ==> s[a..b][c..d][i] == s[a + c + i];
  }

  function Flatten(parts: seq<seq<Byte>>): (s: seq<Byte>)
  {
    if parts == [] then [] else parts[0] + Flatten(parts[1..])
  }

  lemma {:induction false} FlattenConcat(a: seq<seq<Byte>>, b: seq<seq<Byte>>)
    ensures Flatten(a + b) == Flatten(a) + Flatten(b)
  {
    if a == [] {
      assert a + b == b;
    } else {
      assert (a + b)[1..] == a[1..] + b;
      FlattenConcat(a[1..], b);
    }
  }

  lemma FlattenSnoc(a: seq<seq<Byte>>, last: seq<Byte>)
    ensures Flatten(a + [last]) == Flatten(a) + last
  {
    FlattenConcat(a, [last]);
    assert [last][1..] == [];
  }
}
