/**
 * The payload copy of the multi-SDHCI reply, worker.c:1181-1188. The shipped loop moves `commands->buf_len`
 * bytes, the length of command 0, for every command; the reply was sized with each command's own length
 * (worker.c:1146). The source is the request from its payload area on, with whatever follows that area; the
 * destination is the payload area of the reply, as malloc returned it.
 */
module MultiCopy {
  import opened Bytes
  import opened Layout

  /** Where `off` stands after k rounds of `off += commands->buf_len`. */
  function Steps(k: nat, len: nat): nat
  {
    if k == 0 then 0 else Steps(k - 1, len) + len
  }

  lemma {:induction false} StepsMonotone(a: nat, b: nat, len: nat)
    requires a <= b
    ensures Steps(a, len) <= Steps(b, len)
    ensures a < b ==> Steps(a, len) + len <= Steps(b, len)
    ensures len == 0 ==> Steps(b, len) == 0
    decreases b
  {
    if a < b {
      StepsMonotone(a, b - 1, len);
    } else if b > 0 {
      StepsMonotone(b - 1, b - 1, len);
    }
  }

  lemma {:induction false} StepsSum(lens: seq<nat>, k: nat, len: nat)
    requires k <= |lens| && forall i :: 0 <= i < k ==> lens[i] == len
    ensures Sum(lens[..k]) == Steps(k, len)
  {
    if k > 0 {
      StepsSum(lens, k - 1, len);
      SumNext(lens, k - 1);
    }
  }

  /** k rounds end at k times the length. */
  lemma {:induction false} StepsTimes(k: nat, len: nat)
    ensures Steps(k, len) == k * len
  {
    if k > 0 {
      StepsTimes(k - 1, len);
    }
  }

  /** The first k rounds with the length of command 0. */
  function Shipped(lens: seq<nat>, k: nat, src: seq<Byte>, dst: seq<Byte>): (s: seq<Byte>)
    requires k <= |lens| && |dst| == Sum(lens) && Safe(lens, |src|)
    ensures |s| == |dst|
  {
    if k == 0 then dst
    else
      var at, len := Sum(lens[..k - 1]), lens[0];
      InBounds(lens, |src|, k - 1);
      Splice(Shipped(lens, k - 1, src, dst), Steps(k - 1, len), src[at..at + len])
  }

  /** The first k rounds with each command's own length. */
  function Intended(lens: seq<nat>, k: nat, src: seq<Byte>, dst: seq<Byte>): (s: seq<Byte>)
    requires k <= |lens| && |src| >= |dst| == Sum(lens)
    ensures |s| == |dst|
  {
    if k == 0 then dst
    else
      var at, len := Sum(lens[..k - 1]), lens[k - 1];
      SumMonotone(lens, k - 1, |lens|);
      assert lens[..|lens|] == lens;
      Splice(Intended(lens, k - 1, src, dst), at, src[at..at + len])
  }

  /** Every shipped copy reads inside the `room` bytes of the source and writes inside the destination. */
  predicate Safe(lens: seq<nat>, room: nat)
  {
    forall k :: 0 <= k < |lens| ==> RoundSafe(lens, room, k)
  }

  predicate RoundSafe(lens: seq<nat>, room: nat, k: nat)
    requires k < |lens|
  {
    Sum(lens[..k]) + lens[0] <= room && Steps(k, lens[0]) + lens[0] <= Sum(lens)
  }

  lemma InBounds(lens: seq<nat>, room: nat, k: nat)
    requires Safe(lens, room) && k < |lens|
    ensures Steps(k, lens[0]) + lens[0] <= Sum(lens) && Sum(lens[..k]) + lens[0] <= room
  {
    assert RoundSafe(lens, room, k);
  }

  /** The last round decides: the first length must fit in as often as there are commands, and behind the others. */
  lemma SafeWhen(lens: seq<nat>, room: nat)
    requires lens != []
    ensures Safe(lens, room) <==> |lens| * lens[0] <= Sum(lens) && Sum(lens[..|lens| - 1]) + lens[0] <= room
  {
    hide Sum, Steps;
    var n := |lens| - 1;
    StepsTimes(n, lens[0]);
    assert Steps(n, lens[0]) + lens[0] == |lens| * lens[0];
    if RoundSafe(lens, room, n) {
      forall k | 0 <= k < |lens|
        ensures RoundSafe(lens, room, k)
      {
        SumMonotone(lens, k, n);
        StepsMonotone(k, n, lens[0]);
      }
    }
  }

  /** Unequal lengths need not take the loop out of its buffers. */
  lemma SafeUnequal()
    ensures Safe([1, 2], 3) && !Uniform([1, 2])
  {
    var lens := [1, 2];
    assert lens[..1] == [1] && lens[..1][..0] == [] && lens[..2] == lens;
    assert Sum(lens[..1]) == 1 && Sum(lens) == 3;
    SafeWhen(lens, 3);
    assert lens[1] != lens[0];
  }

  predicate Uniform(lens: seq<nat>)
  {
    forall i :: 0 <= i < |lens| ==> lens[i] == lens[0]
  }

  lemma CopySlice(src: seq<Byte>, dst: seq<Byte>, at: nat, len: nat)
    requires at + len <= |dst| <= |src|
    ensures Splice(src[..at] + dst[at..], at, src[at..at + len]) == src[..at + len] + dst[at + len..]
  {
    FillNext(dst, src[..at], src[at..at + len]);
    assert src[..at] + src[at..at + len] == src[..at + len];
  }

  lemma SumNothing(lens: seq<nat>)
    ensures Sum(lens[..0]) == 0
  {
  }

  /** The intended loop rebuilds the payload area: the slices are contiguous in both packets. */
  lemma {:induction false} IntendedPrefix(lens: seq<nat>, k: nat, src: seq<Byte>, dst: seq<Byte>)
    requires k <= |lens| && |src| >= |dst| == Sum(lens)
    ensures Sum(lens[..k]) <= Sum(lens)
    ensures Intended(lens, k, src, dst) == src[..Sum(lens[..k])] + dst[Sum(lens[..k])..]
  {
    hide Splice, Sum;
    SumMonotone(lens, k, |lens|);
    assert lens[..|lens|] == lens;
    if k > 0 {
      IntendedPrefix(lens, k - 1, src, dst);
      SumNext(lens, k - 1);
      CopySlice(src, dst, Sum(lens[..k - 1]), lens[k - 1]);
    } else {
      SumNothing(lens);
      assert src[..0] + dst[0..] == dst;
    }
  }

  lemma IntendedIsSource(lens: seq<nat>, src: seq<Byte>, dst: seq<Byte>)
    requires |src| >= |dst| == Sum(lens)
    ensures Intended(lens, |lens|, src, dst) == src[..|dst|]
  {
    hide Intended, Sum;
    IntendedPrefix(lens, |lens|, src, dst);
    assert lens[..|lens|] == lens;
    assert dst[|dst|..] == [];
  }

  lemma UniformSafe(lens: seq<nat>, room: nat)
    requires Uniform(lens) && Sum(lens) <= room
    ensures Safe(lens, room)
  {
    forall k | 0 <= k < |lens|
      ensures RoundSafe(lens, room, k)
    {
      StepsSum(lens, k, lens[0]);
      SumMonotone(lens, k, |lens|);
      assert lens[..|lens|] == lens;
    }
  }

  /** With equal lengths the shipped loop is the intended one, whatever source and destination hold. */
  lemma {:induction false} UniformCopies(lens: seq<nat>, k: nat, src: seq<Byte>, dst: seq<Byte>)
    requires Uniform(lens) && Safe(lens, |src|) && k <= |lens| && |src| >= |dst| == Sum(lens)
    ensures Shipped(lens, k, src, dst) == Intended(lens, k, src, dst)
  {
    hide Splice, Sum, Steps, Safe;
    if k > 0 {
      UniformCopies(lens, k - 1, src, dst);
      StepsSum(lens, k - 1, lens[0]);
    }
  }

  /** k shipped rounds leave everything from k times the first length on alone. */
  lemma {:induction false} ShippedUntouched(lens: seq<nat>, k: nat, src: seq<Byte>, dst: seq<Byte>, p: nat)
    requires 0 < |lens| && k <= |lens| && |dst| == Sum(lens) && Safe(lens, |src|)
    requires Steps(k, lens[0]) <= p < Sum(lens)
    ensures Shipped(lens, k, src, dst)[p] == dst[p]
  {
    if k > 0 {
      InBounds(lens, |src|, k - 1);
      ShippedUntouched(lens, k - 1, src, dst, p);
    }
  }

  /** Round m put the first byte of command m's payload at m times the first length. */
  lemma {:induction false} ShippedAt(lens: seq<nat>, k: nat, src: seq<Byte>, dst: seq<Byte>, m: nat)
    requires m < k <= |lens| && lens[0] > 0 && |dst| == Sum(lens) && Safe(lens, |src|)
    ensures Steps(m, lens[0]) < Sum(lens) && Sum(lens[..m]) < |src|
    ensures Shipped(lens, k, src, dst)[Steps(m, lens[0])] == src[Sum(lens[..m])]
  {
    InBounds(lens, |src|, m);
    InBounds(lens, |src|, k - 1);
    if m < k - 1 {
      ShippedAt(lens, k - 1, src, dst, m);
      StepsMonotone(m, k - 1, lens[0]);
    }
  }

  lemma FirstDifference(lens: seq<nat>) returns (j: nat)
    requires !Uniform(lens)
    ensures 0 < j < |lens| && lens[j] != lens[0] && forall i :: 0 <= i < j ==> lens[i] == lens[0]
  {
    j := 0;
    while j < |lens| && lens[j] == lens[0]
      invariant j <= |lens| && forall i :: 0 <= i < j ==> lens[i] == lens[0]
    {
      j := j + 1;
    }
  }

  /** Any other byte. */
  function Other(b: Byte): (c: Byte)
    ensures c != b
  {
    if b == 0 then 1 else 0
  }

  /** Rounds that end before the area does leave its last byte as malloc returned it. */
  lemma ShortFails(lens: seq<nat>, rest: seq<Byte>, dst: seq<Byte>) returns (area: seq<Byte>)
    requires lens != [] && |dst| == Sum(lens) && Safe(lens, |dst| + |rest|) && Steps(|lens|, lens[0]) < Sum(lens)
    ensures |area| == Sum(lens)
    ensures Shipped(lens, |lens|, area + rest, dst) != area
  {
    hide Sum, Steps, Shipped;
    var last := Sum(lens) - 1;
    area := seq(Sum(lens), _ => Other(dst[last]));
    ShippedUntouched(lens, |lens|, area + rest, dst, last);
  }

  /** A command whose payload does not start where round m writes it ends up with another one's bytes. */
  lemma ShiftedFails(lens: seq<nat>, m: nat, rest: seq<Byte>, dst: seq<Byte>) returns (area: seq<Byte>)
    requires m < |lens| && lens[0] > 0 && |dst| == Sum(lens) && Safe(lens, |dst| + |rest|)
    requires Sum(lens[..m]) != Steps(m, lens[0])
    ensures |area| == Sum(lens)
    ensures Shipped(lens, |lens|, area + rest, dst) != area
  {
    hide Sum, Steps, Shipped;
    var p, q := Steps(m, lens[0]), Sum(lens[..m]);
    InBounds(lens, |dst| + |rest|, m);
    var there := if q < |dst| then 0 else rest[q - |dst|];
    area := seq(Sum(lens), i => if i == p then Other(there) else 0);
    ShippedAt(lens, |lens|, area + rest, dst, m);
    assert (area + rest)[q] == there;
  }

  /**
   * With unequal lengths some payload comes out wrong, if the loop does not leave its buffers altogether: whatever
   * follows the payload area in the request and whatever the reply buffer held.
   */
  lemma UnequalFails(lens: seq<nat>, rest: seq<Byte>, dst: seq<Byte>) returns (area: seq<Byte>)
    requires !Uniform(lens) && |dst| == Sum(lens) && Safe(lens, |dst| + |rest|)
    ensures |area| == Sum(lens)
    ensures Shipped(lens, |lens|, area + rest, dst) != area
  {
    hide Shipped;
    var n, len := |lens|, lens[0];
    var j := FirstDifference(lens);
    StepsSum(lens, j, len);
    SumNext(lens, j);
    SumMonotone(lens, j + 1, n);
    assert lens[..n] == lens;
    InBounds(lens, |dst| + |rest|, n - 1);
    if Steps(n, len) < Sum(lens) {
      area := ShortFails(lens, rest, dst);
    } else {
      StepsMonotone(j, n, len);
      area := ShiftedFails(lens, j + 1, rest, dst);
    }
  }

  lemma UniformShips(lens: seq<nat>, area: seq<Byte>, rest: seq<Byte>, dst: seq<Byte>)
    requires Uniform(lens) && |area| == |dst| == Sum(lens)
    ensures Safe(lens, |area + rest|) && Shipped(lens, |lens|, area + rest, dst) == area
  {
    hide Shipped, Intended, Sum;
    UniformSafe(lens, |area + rest|);
    UniformCopies(lens, |lens|, area + rest, dst);
    IntendedIsSource(lens, area + rest, dst);
    assert (area + rest)[..|dst|] == area;
  }

  /**
   * The shipped loop stays in bounds and reproduces every content of the payload area if and only if all commands
   * carry the length of command 0. What follows the area in the request and what the reply buffer held before play
   * no part: the condition is the same for each of them.
   */
  lemma ShippedIffUniform(lens: seq<nat>, rest: seq<Byte>, dst: seq<Byte>)
    requires |dst| == Sum(lens)
    ensures (Safe(lens, |dst| + |rest|) && forall area: seq<Byte> :: |area| == |dst| ==>
               Shipped(lens, |lens|, area + rest, dst) == area)
            <==> Uniform(lens)
  {
    hide Shipped, Sum, RoundSafe;
    if Uniform(lens) {
      UniformSafe(lens, |dst| + |rest|);
      forall area: seq<Byte> | |area| == |dst|
        ensures Shipped(lens, |lens|, area + rest, dst) == area
      {
        UniformShips(lens, area, rest, dst);
      }
    } else if Safe(lens, |dst| + |rest|) {
      var area := UnequalFails(lens, rest, dst);
    }
  }
}
