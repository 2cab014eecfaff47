/** unix/network.c: NetRecv and NetWrite over a client socket whose recv may return any positive chunk. */
module Network {
  import opened Bytes

  /** What recv returns at most: the n-th call, peeking or consuming, hands over this many bytes if there are any. */
  type Schedule = (nat, bool) -> nat

  /** One recv: at least one byte while the stream lasts, never more than asked for or available. */
  function ChunkSize(schedule: Schedule, call: nat, peek: bool, len: nat, available: nat): (n: nat)
    requires len > 0 && available > 0
    ensures 0 < n <= len && n <= available
  {
    var n := Min(schedule(call, peek), Min(len, available));
    if n == 0 then 1 else n
  }

  /** The bytes a peeking NetRecv collects: every recv starts again at the front of the stream. */
  function Peeked(available: seq<Byte>, len: nat, schedule: Schedule, call: nat): (s: seq<Byte>)
    ensures |s| == if available == [] then 0 else len
    decreases len
  {
    if len == 0 || available == [] then []
    else
      var n := ChunkSize(schedule, call, true, len, |available|);
      available[..n] + Peeked(available, len - n, schedule, call + 1)
  }

  /** The bytes a NetRecv of `len` collects from the unread part of a stream. */
  function Collected(available: seq<Byte>, len: int, peek: bool, schedule: Schedule, call: nat): (s: seq<Byte>)
    ensures |s| <= if len < 0 then 0 else len
  {
    if len <= 0 then []
    else if peek then Peeked(available, len, schedule, call)
    else available[..Min(len, |available|)]
  }

  /** One recv of the loop: the next chunk of what is to be collected, and what is left. */
  lemma CollectedStep(all: seq<Byte>, at: nat, available: seq<Byte>, len: int, peek: bool, schedule: Schedule,
                      call: nat)
    requires len > 0 && available != [] && at <= |all|
    requires all[at..] == Collected(available, len, peek, schedule, call)
    ensures var n := ChunkSize(schedule, call, peek, len, |available|);
            && at + n <= |all|
            && (forall i :: 0 <= i < n ==> all[at + i] == available[i])
            && all[at + n..] == Collected(if peek then available else available[n..], len - n, peek, schedule, call + 1)
  {
    hide Peeked;
    var n := ChunkSize(schedule, call, peek, len, |available|);
    var rest := Collected(if peek then available else available[n..], len - n, peek, schedule, call + 1);
    CollectedSplit(available, len, peek, schedule, call);
    AfterFront(all, at, available[..n], rest);
  }

  lemma CollectedSplit(available: seq<Byte>, len: int, peek: bool, schedule: Schedule, call: nat)
    requires len > 0 && available != []
    ensures var n := ChunkSize(schedule, call, peek, len, |available|);
            Collected(available, len, peek, schedule, call)
            == available[..n]
               + Collected(if peek then available else available[n..], len - n, peek, schedule, call + 1)
  {
    hide ChunkSize;
    var n := ChunkSize(schedule, call, peek, len, |available|);
    if peek {
      if len == n {
        assert Peeked(available, 0, schedule, call + 1) == [];
      }
    } else {
      var m := Min(len, |available|);
      assert available[..m] == available[..n] + available[n..][..m - n];
    }
  }

  lemma AfterFront(all: seq<Byte>, at: nat, front: seq<Byte>, rest: seq<Byte>)
    requires at <= |all| && all[at..] == front + rest
    ensures at + |front| <= |all| && all[at + |front|..] == rest
    ensures forall i :: 0 <= i < |front| ==> all[at + i] == front[i]
  {
    assert forall i :: 0 <= i < |front| ==> all[at + i] == all[at..][i];
    assert all[at + |front|..] == all[at..][|front|..];
  }

  lemma NothingToCollect(available: seq<Byte>, len: int, peek: bool, schedule: Schedule, call: nat)
    requires len <= 0 || available == []
    ensures Collected(available, len, peek, schedule, call) == []
  {
  }

  /** A client connection: the bytes the peer sends, how far they are consumed, and the packets written back. */
  class NetworkContext {
    const incoming: seq<Byte>
    const schedule: Schedule
    var cursor: nat
    var calls: nat
    var sent: seq<seq<Byte>>

    constructor (incoming: seq<Byte>, schedule: Schedule)
      ensures this.incoming == incoming && this.schedule == schedule
      ensures cursor == 0 && calls == 0 && sent == []
    {
      this.incoming, this.schedule := incoming, schedule;
      cursor, calls, sent := 0, 0, [];
    }

    ghost predicate Valid()
      reads this
    {
      cursor <= |incoming|
    }

    function Available(): (s: seq<Byte>)
      requires Valid()
      reads this
    {
      incoming[cursor..]
    }

    /** What a NetRecv of `len` bytes puts at the front of its buffer. */
    function Received(len: int, peek: bool): (s: seq<Byte>)
      requires Valid()
      reads this
      ensures |s| <= if len < 0 then 0 else len
    {
      Collected(Available(), len, peek, schedule, calls)
    }

    /** The kernel's recv: copies one chunk to buf[at..] and, unless peeking, consumes it. */
    method Recv(buf: array<Byte>, at: nat, len: nat, peek: bool) returns (got: nat)
      requires Valid() && len > 0 && at + len <= buf.Length
      modifies this, buf
      ensures Valid() && sent == old(sent) && calls == old(calls) + 1
      ensures got == if old(Available()) == [] then 0
                     else ChunkSize(schedule, old(calls), peek, len, |old(Available())|)
      ensures cursor == old(cursor) + if peek then 0 else got
      ensures forall i :: 0 <= i < got ==> buf[at + i] == old(Available())[i]
      ensures forall i :: 0 <= i < buf.Length && !(at <= i < at + got) ==> buf[i] == old(buf[i])
    {
      calls := calls + 1;
      if cursor == |incoming| {
        return 0;
      }
      got := ChunkSize(schedule, calls - 1, peek, len, |incoming| - cursor);
      forall i | 0 <= i < got {
        buf[at + i] := incoming[cursor + i];
      }
      if !peek {
        cursor := cursor + got;
      }
    }

    method Write(buf: array<Byte>)
      requires Valid()
      modifies this`sent
      ensures Valid()
      ensures sent == old(sent) + [buf[..]]
    {
      sent := sent + [buf[..]];
    }
  }

  /** One round of the loop below: the next chunk of `all` goes behind the bytes already collected. */
  method RecvRound(ctx: NetworkContext, buf: array<Byte>, gotTotal: nat, left: nat, peek: bool, ghost all: seq<Byte>)
    returns (gotOnce: nat)
    requires ctx.Valid() && 0 < left && gotTotal + left <= buf.Length
    requires gotTotal <= |all| && all[gotTotal..] == ctx.Received(left, peek)
    modifies ctx, buf
    ensures ctx.Valid() && ctx.sent == old(ctx.sent)
    ensures ctx.cursor == old(ctx.cursor) + if peek then 0 else gotOnce
    ensures gotOnce <= left && gotTotal + gotOnce <= |all|
    ensures gotOnce == 0 ==> gotTotal == |all|
    ensures gotOnce > 0 ==> all[gotTotal + gotOnce..] == ctx.Received(left - gotOnce, peek)
    ensures forall i :: gotTotal <= i < gotTotal + gotOnce ==> buf[i] == all[i]
    ensures forall i :: 0 <= i < buf.Length && !(gotTotal <= i < gotTotal + gotOnce) ==> buf[i] == old(buf[i])
  {
    ghost var available, call := ctx.Available(), ctx.calls;
    hide Collected, Peeked, ChunkSize;
    gotOnce := ctx.Recv(buf, gotTotal, left, peek);
    if available == [] {
      NothingToCollect(available, left, peek, ctx.schedule, call);
    } else {
      CollectedStep(all, gotTotal, available, left, peek, ctx.schedule, call);
      assert forall i :: gotTotal <= i < gotTotal + gotOnce ==> buf[i] == buf[gotTotal + (i - gotTotal)];
    }
  }

  /**
   * unix/network.c:119-140. A consuming receive yields the next min(len, rest) bytes of the stream in
   * order, however recv cuts them; a peeking one leaves the stream alone but collects `Peeked`.
   */
  method NetRecv(ctx: NetworkContext, buf: array<Byte>, len: int, peek: bool) returns (gotTotal: nat)
    requires ctx.Valid() && len <= buf.Length
    modifies ctx, buf
    ensures ctx.Valid() && ctx.sent == old(ctx.sent)
    ensures gotTotal == |old(ctx.Received(len, peek))|
    ensures ctx.cursor == old(ctx.cursor) + if peek then 0 else gotTotal
    ensures buf[..gotTotal] == old(ctx.Received(len, peek))
    ensures forall i :: gotTotal <= i < buf.Length ==> buf[i] == old(buf[i])
  {
    gotTotal := 0;
    var left := len;
    ghost var all := ctx.Received(len, peek);
    hide Collected, Peeked, ChunkSize;
    while left > 0
      invariant ctx.Valid() && ctx.sent == old(ctx.sent)
      invariant gotTotal <= |all| && gotTotal + left == len
      invariant ctx.cursor == old(ctx.cursor) + if peek then 0 else gotTotal
      invariant all[gotTotal..] == ctx.Received(left, peek)
      invariant forall i :: 0 <= i < gotTotal ==> buf[i] == all[i]
      invariant forall i :: gotTotal <= i < buf.Length ==> buf[i] == old(buf[i])
      decreases left
    {
      var gotOnce := RecvRound(ctx, buf, gotTotal, left, peek, all);
      if gotOnce <= 0 {
        return;
      }
      gotTotal := gotTotal + gotOnce;
      left := left - gotOnce;
    }
    NothingToCollect(ctx.Available(), left, peek, ctx.schedule, ctx.calls);
  }

  /**
   * A peek of `len` bytes shows the true prefix of every long enough stream if and only if its first
   * recv already returns all of them; a split peek repeats the leading bytes instead.
   */
  lemma PeekIsPrefixIffWhole(len: nat, schedule: Schedule, call: nat)
    requires len > 0
    ensures (forall available: seq<Byte> :: |available| >= len ==>
               Peeked(available, len, schedule, call) == available[..len])
            <==> schedule(call, true) >= len || len == 1
  {
    if schedule(call, true) >= len || len == 1 {
      forall available: seq<Byte> | |available| >= len
        ensures Peeked(available, len, schedule, call) == available[..len]
      {
        PeekWhole(available, len, schedule, call);
      }
    } else {
      var available := PeekSplitRepeats(len, schedule, call);
    }
  }

  lemma PeekSplitRepeats(len: nat, schedule: Schedule, call: nat) returns (available: seq<Byte>)
    requires len > 1 && schedule(call, true) < len
    ensures |available| >= len && Peeked(available, len, schedule, call) != available[..len]
  {
    available := seq(len, i => if i == 0 then 0 else 1);
    var n := ChunkSize(schedule, call, true, len, len);
    assert Peeked(available, len, schedule, call) == available[..n] + Peeked(available, len - n, schedule, call + 1);
    assert Peeked(available, len, schedule, call)[n] == available[0] != available[..len][n];
  }

  lemma PeekWhole(available: seq<Byte>, len: nat, schedule: Schedule, call: nat)
    requires |available| >= len && (schedule(call, true) >= len || len == 1)
    ensures Peeked(available, len, schedule, call) == available[..len]
  {
    if len > 0 {
      assert ChunkSize(schedule, call, true, len, |available|) == len;
      assert Peeked(available, 0, schedule, call + 1) == [];
    }
  }
}
