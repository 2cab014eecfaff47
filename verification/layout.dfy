/** Variable-length blocks laid one behind another, and cut out again at prefix sums of their lengths. */
module Layout {
  import opened Bytes

  function Sum(lens: seq<nat>): nat
  {
    if lens == [] then 0 else Sum(lens[..|lens| - 1]) + lens[|lens| - 1]
  }

  lemma SumNext(lens: seq<nat>, k: nat)
    requires k < |lens|
    ensures Sum(lens[..k + 1]) == Sum(lens[..k]) + lens[k]
  {
    assert lens[..k + 1][..k] == lens[..k];
  }

  lemma {:induction false} SumMonotone(lens: seq<nat>, i: nat, j: nat)
    requires i <= j <= |lens|
    ensures Sum(lens[..i]) <= Sum(lens[..j])
    ensures i < j ==> Sum(lens[..i]) + lens[i] <= Sum(lens[..j])
    decreases j - i
  {
    if i < j {
      SumNext(lens, i);
      SumMonotone(lens, i + 1, j);
    }
  }

  lemma {:induction false} FlattenPrefix(parts: seq<seq<Byte>>, lens: seq<nat>, k: nat)
    requires |parts| == |lens| && k <= |parts|
    requires forall i :: 0 <= i < |parts| ==> |parts[i]| == lens[i]
    ensures |Flatten(parts[..k])| == Sum(lens[..k])
  {
    if k > 0 {
      FlattenPrefix(parts, lens, k - 1);
      SumNext(lens, k - 1);
      assert parts[..k] == parts[..k - 1] + [parts[k - 1]];
      FlattenSnoc(parts[..k - 1], parts[k - 1]);
    }
  }

  lemma FlattenSlice(parts: seq<seq<Byte>>, lens: seq<nat>, k: nat)
    requires |parts| == |lens| && k < |parts|
    requires forall i :: 0 <= i < |parts| ==> |parts[i]| == lens[i]
    ensures |Flatten(parts)| == Sum(lens)
    ensures Sum(lens[..k]) + lens[k] <= Sum(lens)
    ensures Flatten(parts)[Sum(lens[..k])..Sum(lens[..k]) + lens[k]] == parts[k]
  {
    hide Sum;
    FlattenPrefix(parts, lens, |parts|);
    FlattenPrefix(parts, lens, k);
    assert parts[..|parts|] == parts && lens[..|lens|] == lens;
    SumMonotone(lens, k, |lens|);
    FlattenAround(parts, k);
  }

  lemma FlattenAround(parts: seq<seq<Byte>>, k: nat)
    requires k < |parts|
    ensures Flatten(parts) == Flatten(parts[..k]) + parts[k] + Flatten(parts[k + 1..])
  {
    var rest := parts[k..];
    assert parts == parts[..k] + rest;
    FlattenConcat(parts[..k], rest);
    assert rest[0] == parts[k] && rest[1..] == parts[k + 1..];
  }

  lemma {:induction false} SumConstant(lens: seq<nat>, k: nat, size: nat)
    requires k <= |lens| && forall i :: 0 <= i < k ==> lens[i] == size
    ensures Sum(lens[..k]) == k * size
  {
    if k > 0 {
      SumConstant(lens, k - 1, size);
      SumNext(lens, k - 1);
    }
  }

  /** Blocks of one size: block k of the concatenation starts at k times that size. */
  lemma FlattenBlock(parts: seq<seq<Byte>>, size: nat, k: nat)
    requires k < |parts| && forall i :: 0 <= i < |parts| ==> |parts[i]| == size
    ensures |Flatten(parts)| == |parts| * size
    ensures k * size + size <= |parts| * size
    ensures Flatten(parts)[k * size..k * size + size] == parts[k]
  {
    var lens := seq(|parts|, _ => size);
    SumConstant(lens, |parts|, size);
    SumConstant(lens, k, size);
    assert lens[..|lens|] == lens;
    FlattenSlice(parts, lens, k);
  }
}
