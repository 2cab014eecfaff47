/**
 * Multi-command SDHCI: the loops of worker.c:1103-1188 over the packed request and reply, and
 * linux/sdhci.c:240-295 between them. Offsets count from the start of the packet.
 */
module Sdhci {
  import opened Bytes
  import opened Layout
  import opened Endian
  import opened Packets
  import opened Backend

  const COMMAND_SIZE := 27
  const RESPONSE_SIZE := 32
  const MULTI_SIZE := 24

  // The packed AaruCmdSdhci and AaruResSdhci.

  function EncodeCommand(c: SdhciCommand): (s: seq<Byte>)
    ensures |s| == COMMAND_SIZE
  {
    [c.command, c.write, c.application] + LeBytes(c.flags, 4) + LeBytes(c.argument, 4) + LeBytes(c.blockSize, 4)
    + LeBytes(c.blocks, 4) + LeBytes(c.bufLen, 4) + LeBytes(c.timeout, 4)
  }

  function CommandAt(p: seq<Byte>, off: nat): SdhciCommand
    requires off + COMMAND_SIZE <= |p|
  {
    SdhciCommand(p[off], p[off + 1], p[off + 2], U32At(p, off + 3), U32At(p, off + 7), U32At(p, off + 11),
                 U32At(p, off + 15), U32At(p, off + 19), U32At(p, off + 23))
  }

  lemma CommandAtEncoded(p: seq<Byte>, off: nat, c: SdhciCommand)
    requires off + COMMAND_SIZE <= |p| && p[off..off + COMMAND_SIZE] == EncodeCommand(c)
    ensures CommandAt(p, off) == c
  {
    hide LeBytes, U32At;
    var s := EncodeCommand(c);
    assert p[off] == s[0] && p[off + 1] == s[1] && p[off + 2] == s[2];
    FieldOf(p, off, s, 3, c.flags);
    FieldOf(p, off, s, 7, c.argument);
    FieldOf(p, off, s, 11, c.blockSize);
    FieldOf(p, off, s, 15, c.blocks);
    FieldOf(p, off, s, 19, c.bufLen);
    FieldOf(p, off, s, 23, c.timeout);
  }

  lemma FieldOf(p: seq<Byte>, off: nat, s: seq<Byte>, at: nat, x: U32)
    requires off + |s| <= |p| && p[off..off + |s|] == s && at + 4 <= |s| && s[at..at + 4] == LeBytes(x, 4)
    ensures U32At(p, off + at) == x
  {
    SliceOfSlice(p, off, off + |s|, at, at + 4);
    assert p[off + at..off + at + 4] == LeBytes(x, 4);
    U32AtLe(p, off + at, x);
  }

  function EncodeResponse(bufLen: U32, w: Words4, duration: U32, sense: U32, errorNo: U32): (s: seq<Byte>)
    ensures |s| == RESPONSE_SIZE
  {
    LeBytes(bufLen, 4) + LeBytes(w.w0, 4) + LeBytes(w.w1, 4) + LeBytes(w.w2, 4) + LeBytes(w.w3, 4)
    + LeBytes(duration, 4) + LeBytes(sense, 4) + LeBytes(errorNo, 4)
  }

  // Payload layout: command i's bytes start behind those of the commands before it.

  function BufLens(cmds: seq<SdhciCommand>): (lens: seq<nat>)
    ensures |lens| == |cmds|
  {
    seq(|cmds|, i requires 0 <= i < |cmds| => cmds[i].bufLen)
  }

  function Count(p: seq<Byte>): U64
    requires |p| >= MULTI_SIZE
  {
    U64At(p, 16)
  }

  /** All of the command table is there; the TODO at worker.c:1105 admits nothing checks it. */
  predicate TableFits(p: seq<Byte>)
  {
    |p| >= MULTI_SIZE && MULTI_SIZE + COMMAND_SIZE * Count(p) as int <= |p|
  }

  function Commands(p: seq<Byte>): (cmds: seq<SdhciCommand>)
    requires TableFits(p)
    ensures |cmds| == Count(p)
  {
    seq(Count(p), i requires 0 <= i < Count(p) as int => CommandAt(p, MULTI_SIZE + COMMAND_SIZE * i))
  }

  function DataStart(n: nat): nat
  {
    MULTI_SIZE + COMMAND_SIZE * n
  }

  function PayloadOffset(cmds: seq<SdhciCommand>, i: nat): nat
    requires i <= |cmds|
  {
    DataStart(|cmds|) + Sum(BufLens(cmds)[..i])
  }

  function PayloadEnd(cmds: seq<SdhciCommand>): nat
  {
    DataStart(|cmds|) + Sum(BufLens(cmds))
  }

  predicate MultiFits(p: seq<Byte>)
  {
    TableFits(p) && PayloadEnd(Commands(p)) <= |p|
  }

  lemma PayloadBounds(cmds: seq<SdhciCommand>, i: nat)
    requires i < |cmds|
    ensures DataStart(|cmds|) <= PayloadOffset(cmds, i)
    ensures PayloadOffset(cmds, i) + cmds[i].bufLen as int <= PayloadEnd(cmds)
  {
    var lens := BufLens(cmds);
    SumMonotone(lens, i, |lens|);
    assert lens[..|lens|] == lens;
  }

  function Payload(p: seq<Byte>, cmds: seq<SdhciCommand>, i: nat): (s: seq<Byte>)
    requires i < |cmds| && PayloadEnd(cmds) <= |p|
    ensures |s| == cmds[i].bufLen
  {
    PayloadBounds(cmds, i);
    p[PayloadOffset(cmds, i)..PayloadOffset(cmds, i) + cmds[i].bufLen as int]
  }

  // The request a client builds, and what the server reads from it.

  function EncodedCommands(cmds: seq<SdhciCommand>): (s: seq<seq<Byte>>)
    ensures |s| == |cmds|
  {
    seq(|cmds|, i requires 0 <= i < |cmds| => EncodeCommand(cmds[i]))
  }

  /** What a client puts behind the header of a multi-command packet. */
  function RequestPayload(cmds: seq<SdhciCommand>, payloads: seq<seq<Byte>>): seq<Byte>
  {
    LeBytes(|cmds|, 8) + Flatten(EncodedCommands(cmds)) + Flatten(payloads)
  }

  function EncodeRequest(header: seq<Byte>, cmds: seq<SdhciCommand>, payloads: seq<seq<Byte>>): seq<Byte>
  {
    header + RequestPayload(cmds, payloads)
  }

  lemma RequestParts(header: seq<Byte>, cmds: seq<SdhciCommand>, payloads: seq<seq<Byte>>)
    requires |header| == HEADER_SIZE && |cmds| < 0x1_0000_0000_0000_0000
    ensures var p := EncodeRequest(header, cmds, payloads);
            && DataStart(|cmds|) <= |p|
            && Count(p) == |cmds|
            && p[MULTI_SIZE..DataStart(|cmds|)] == Flatten(EncodedCommands(cmds))
            && p[DataStart(|cmds|)..] == Flatten(payloads)
  {
    hide LeBytes, U64At;
    var p := EncodeRequest(header, cmds, payloads);
    var table := Flatten(EncodedCommands(cmds));
    if cmds != [] {
      FlattenBlock(EncodedCommands(cmds), COMMAND_SIZE, 0);
    }
    assert |table| == COMMAND_SIZE * |cmds|;
    assert p[16..24] == LeBytes(|cmds|, 8);
    U64AtLe(p, 16, |cmds|);
  }

  lemma CommandsRoundTrip(header: seq<Byte>, cmds: seq<SdhciCommand>, payloads: seq<seq<Byte>>)
    requires |header| == HEADER_SIZE && |cmds| < 0x1_0000_0000_0000_0000
    ensures var p := EncodeRequest(header, cmds, payloads); TableFits(p) && Commands(p) == cmds
  {
    hide LeBytes, CommandAt, EncodeCommand, EncodeRequest, U64At;
    var p := EncodeRequest(header, cmds, payloads);
    RequestParts(header, cmds, payloads);
    forall i | 0 <= i < |cmds|
      ensures Commands(p)[i] == cmds[i]
    {
      FlattenBlock(EncodedCommands(cmds), COMMAND_SIZE, i);
      var off := MULTI_SIZE + COMMAND_SIZE * i;
      SliceOfSlice(p, MULTI_SIZE, DataStart(|cmds|), i * COMMAND_SIZE, i * COMMAND_SIZE + COMMAND_SIZE);
      CommandAtEncoded(p, off, cmds[i]);
    }
    assert Commands(p) == cmds;
  }

  /** The server reads back every command of every request, whatever the number of commands and payload sizes. */
  lemma RequestRoundTrip(header: seq<Byte>, cmds: seq<SdhciCommand>, payloads: seq<seq<Byte>>)
    requires |header| == HEADER_SIZE && |cmds| == |payloads| < 0x1_0000_0000_0000_0000
    requires forall i :: 0 <= i < |cmds| ==> |payloads[i]| == cmds[i].bufLen
    ensures var p := EncodeRequest(header, cmds, payloads);
            && MultiFits(p)
            && Commands(p) == cmds
            && PayloadEnd(cmds) == |p|
            && (forall i :: 0 <= i < |cmds| ==> Payload(p, cmds, i) == payloads[i])
  {
    hide LeBytes, EncodeRequest, TableFits, Commands, Sum;
    var p := EncodeRequest(header, cmds, payloads);
    CommandsRoundTrip(header, cmds, payloads);
    RequestParts(header, cmds, payloads);
    var lens := BufLens(cmds);
    FlattenPrefix(payloads, lens, |payloads|);
    assert payloads[..|payloads|] == payloads && lens[..|lens|] == lens;
    forall i | 0 <= i < |cmds|
      ensures Payload(p, cmds, i) == payloads[i]
    {
      FlattenSlice(payloads, lens, i);
      PayloadBounds(cmds, i);
      SliceOfSlice(p, DataStart(|cmds|), |p|, Sum(lens[..i]), Sum(lens[..i]) + lens[i]);
      assert p[DataStart(|cmds|)..|p|] == p[DataStart(|cmds|)..];
    }
  }

  /** The payload slices of any accepted request are disjoint and tile the bytes between table and PayloadEnd. */
  lemma PayloadsTile(p: seq<Byte>, cmds: seq<SdhciCommand>)
    requires PayloadEnd(cmds) <= |p|
    ensures forall i, j :: 0 <= i < j < |cmds| ==>
              PayloadOffset(cmds, i) + cmds[i].bufLen as int <= PayloadOffset(cmds, j)
    ensures Flatten(seq(|cmds|, i requires 0 <= i < |cmds| => Payload(p, cmds, i)))
            == p[DataStart(|cmds|)..PayloadEnd(cmds)]
  {
    var lens := BufLens(cmds);
    forall i, j | 0 <= i < j < |cmds|
      ensures PayloadOffset(cmds, i) + cmds[i].bufLen as int <= PayloadOffset(cmds, j)
    {
      SumMonotone(lens, i, j);
    }
    var parts := seq(|cmds|, i requires 0 <= i < |cmds| => Payload(p, cmds, i));
    TilePrefix(p, cmds, parts, |cmds|);
    assert parts[..|cmds|] == parts && lens[..|cmds|] == lens;
  }

  lemma Nothing(lens: seq<nat>, parts: seq<seq<Byte>>)
    ensures Sum(lens[..0]) == 0 && Flatten(parts[..0]) == []
  {
  }

  lemma {:induction false} TilePrefix(p: seq<Byte>, cmds: seq<SdhciCommand>, parts: seq<seq<Byte>>, k: nat)
    requires PayloadEnd(cmds) <= |p| && |parts| == |cmds| && k <= |cmds|
    requires forall i :: 0 <= i < |cmds| ==> parts[i] == Payload(p, cmds, i)
    ensures PayloadOffset(cmds, k) <= PayloadEnd(cmds)
    ensures Flatten(parts[..k]) == p[DataStart(|cmds|)..PayloadOffset(cmds, k)]
  {
    hide Sum, Flatten;
    var lens := BufLens(cmds);
    SumMonotone(lens, k, |lens|);
    assert lens[..|lens|] == lens;
    if k == 0 {
      Nothing(lens, parts);
    } else {
      TilePrefix(p, cmds, parts, k - 1);
      SumNext(lens, k - 1);
      assert parts[..k] == parts[..k - 1] + [parts[k - 1]];
      FlattenSnoc(parts[..k - 1], parts[k - 1]);
      var from, mid, to := DataStart(|cmds|), PayloadOffset(cmds, k - 1), PayloadOffset(cmds, k);
      PayloadBounds(cmds, k - 1);
      assert p[from..mid] + p[mid..to] == p[from..to];
    }
  }
}
