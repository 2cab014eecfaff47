/** The loops of the multi-SDHCI arm, worker.c:1103-1188, and linux/sdhci.c:240-295. */
module MultiSdhci {
  import opened Bytes
  import opened Layout
  import opened Endian
  import opened Packets
  import opened Devices
  import opened Backend
  import opened Buffers
  import opened Sdhci
  import MultiCopy

  /** MmcSingleCommand; `buffer` points into the request packet. */
  datatype Mmc = Mmc(argument: U32, blocks: U32, blockSize: U32, bufLen: U32, buffer: nat, command: Byte,
                     flags: U32, application: Byte, response: Words4, write: Byte)

  const ZERO_WORDS := Words4(0, 0, 0, 0)
  const ZERO_MMC := Mmc(0, 0, 0, 0, 0, 0, 0, 0, ZERO_WORDS, 0)

  function MmcOf(c: SdhciCommand, buffer: nat): Mmc
  {
    Mmc(c.argument, c.blocks, c.blockSize, c.bufLen, buffer, c.command, c.flags, c.application, ZERO_WORDS, c.write)
  }

  function Mmcs(cmds: seq<SdhciCommand>): (ms: seq<Mmc>)
    ensures |ms| == |cmds|
  {
    seq(|cmds|, i requires 0 <= i < |cmds| => MmcOf(cmds[i], PayloadOffset(cmds, i)))
  }

  function IocOf(m: Mmc): IocCmd
  {
    IocCmd(m.write, m.application, m.command, m.argument, ZERO_WORDS, m.flags, m.blockSize, m.blocks, m.buffer)
  }

  function IocCmds(ms: seq<Mmc>): (cs: seq<IocCmd>)
    ensures |cs| == |ms|
  {
    seq(|ms|, i requires 0 <= i < |ms| => IocOf(ms[i]))
  }

  datatype MultiResult = MultiResult(os: Os, ret: int, duration: U32, sense: U32, responses: seq<Words4>,
                                     area: seq<Byte>)

  /**
   * linux/sdhci.c:240-295 as a function. A failing ioctl leaves the positive errno in `error`, so the
   * sense flag, set from `error < 0` afterwards, does not see it.
   */
  function SendMultiSpec(b: Backend, os: Os, ctx: Option<Ctx>, ms: seq<Mmc>, area: seq<Byte>): (r: MultiResult)
    ensures |r.responses| == |ms| && |r.area| == |area| && r.os.SameTable(os)
  {
    if ctx.None? then MultiResult(os, -1, 0, 0, seq(|ms|, i requires 0 <= i < |ms| => ms[i].response), area)
    else
      var io := b.MultiIoctl(os.tick, ctx.value, IocCmds(ms), area);
      MultiResult(b.Tick(os), io.error, 0, if io.error < 0 then 1 else 0,
                  seq(|ms|, i requires 0 <= i < |ms| => io.responses(i)), io.area)
  }

  /** worker.c:1119-1129: the fields of every command. */
  method DecodeFields(order: ByteOrder, p: seq<Byte>, commands: array<Mmc>)
    requires TableFits(p) && commands.Length == Count(p)
    modifies commands
    ensures forall i :: 0 <= i < commands.Length ==> commands[i] == MmcOf(Commands(p)[i], 0)
  {
    hide U32At, LeBytes, FromLe, Load32;
    ghost var cmds := Commands(p);
    for n := 0 to commands.Length
      invariant forall i :: 0 <= i < n ==> commands[i] == MmcOf(cmds[i], 0)
    {
      var at := MULTI_SIZE + COMMAND_SIZE * n;
      commands[n] := Mmc(Load32(order, p, at + 7), Load32(order, p, at + 15), Load32(order, p, at + 11),
                         Load32(order, p, at + 19), 0, p[at], Load32(order, p, at + 3), p[at + 2], ZERO_WORDS,
                         p[at + 1]);
    }
  }

  /** worker.c:1119-1138: fields first, then the payload pointers by a running offset. */
  method DecodeMulti(order: ByteOrder, p: seq<Byte>, commands: array<Mmc>)
    requires MultiFits(p) && commands.Length == Count(p)
    modifies commands
    ensures commands[..] == Mmcs(Commands(p))
  {
    hide U32At, LeBytes, FromLe, PayloadOffset, Sum;
    ghost var cmds := Commands(p);
    DecodeFields(order, p, commands);
    var off := MULTI_SIZE + COMMAND_SIZE * commands.Length;
    FirstOffset(cmds);
    for n := 0 to commands.Length
      invariant off == PayloadOffset(cmds, n)
      invariant forall i :: 0 <= i < n ==> commands[i] == MmcOf(cmds[i], PayloadOffset(cmds, i))
      invariant forall i :: n <= i < commands.Length ==> commands[i] == MmcOf(cmds[i], 0)
    {
      commands[n] := commands[n].(buffer := off);
      NextOffset(cmds, n);
      off := off + commands[n].bufLen;
    }
  }

  lemma FirstOffset(cmds: seq<SdhciCommand>)
    ensures PayloadOffset(cmds, 0) == DataStart(|cmds|)
  {
  }

  lemma NextOffset(cmds: seq<SdhciCommand>, n: nat)
    requires n < |cmds|
    ensures PayloadOffset(cmds, n + 1) == PayloadOffset(cmds, n) + cmds[n].bufLen as int
  {
    SumNext(BufLens(cmds), n);
  }

  /** linux/sdhci.c:240-295; `area` is the data the pointers lead to, as the kernel finds and leaves it. */
  method SendMulti(b: Backend, os: Os, ctx: DeviceContext?, commands: array<Mmc>, area: seq<Byte>)
    returns (os': Os, ret: int, duration: U32, sense: U32, area': seq<Byte>)
    modifies commands
    ensures var r := SendMultiSpec(b, os, ValueOf(ctx), old(commands[..]), area);
            && (os', ret, duration, sense, area') == (r.os, r.ret, r.duration, r.sense, r.area)
            && (forall i :: 0 <= i < commands.Length ==>
                  commands[i] == old(commands[i]).(response := r.responses[i]))
  {
    duration, sense := 0, 0;
    if ctx == null {
      return os, -1, 0, 0, area;
    }
    var count := commands.Length;
    var cmds := new IocCmd[count](_ => IocCmd(0, 0, 0, 0, ZERO_WORDS, 0, 0, 0, 0));
    for i := 0 to count
      modifies cmds
      invariant forall j :: 0 <= j < i ==> cmds[j] == IocOf(commands[j])
    {
      cmds[i] := IocCmd(commands[i].write, commands[i].application, commands[i].command, commands[i].argument,
                        ZERO_WORDS, commands[i].flags, commands[i].blockSize, commands[i].blocks,
                        commands[i].buffer);
    }
    ghost var ms := commands[..];
    assert ms == old(commands[..]);
    assert cmds[..] == IocCmds(ms);
    var io := b.MultiIoctl(os.tick, ValueOf(ctx).value, cmds[..], area);
    for i := 0 to count
      modifies cmds
      invariant forall j :: 0 <= j < i ==> cmds[j].response == io.responses(j)
    {
      cmds[i] := cmds[i].(response := io.responses(i));
    }
    var error := io.error;
    sense := if error < 0 then 1 else 0;
    for i := 0 to count
      modifies commands
      invariant forall j :: 0 <= j < i ==> commands[j] == old(commands[j]).(response := cmds[j].response)
      invariant forall j :: i <= j < count ==> commands[j] == old(commands[j])
    {
      commands[i] := commands[i].(response := cmds[i].response);
    }
    return b.Tick(os), error, duration, sense, io.area;
  }

  // The reply.

  function ResponseBlocks(cmds: seq<SdhciCommand>, r: MultiResult): (s: seq<seq<Byte>>)
    requires |r.responses| == |cmds|
    ensures |s| == |cmds|
  {
    seq(|cmds|, i requires 0 <= i < |cmds| =>
      EncodeResponse(cmds[i].bufLen, r.responses[i], r.duration, r.sense, Bits32(r.ret)))
  }

  /** Count and response slots: the reply up to its payload area. */
  function MultiReplyHead(cmds: seq<SdhciCommand>, r: MultiResult): (s: seq<Byte>)
    requires |r.responses| == |cmds|
    ensures |s| == 8 + RESPONSE_SIZE * |cmds|
  {
    BlocksLength(ResponseBlocks(cmds, r));
    LeBytes(|cmds|, 8) + Flatten(ResponseBlocks(cmds, r))
  }

  /** The reply with the payload area its declared lengths mean. */
  function MultiReplyBody(cmds: seq<SdhciCommand>, r: MultiResult): (s: seq<Byte>)
    requires |r.responses| == |cmds|
    ensures |s| == 8 + RESPONSE_SIZE * |cmds| + |r.area|
  {
    MultiReplyHead(cmds, r) + r.area
  }

  lemma BlocksLength(blocks: seq<seq<Byte>>)
    requires forall i :: 0 <= i < |blocks| ==> |blocks[i]| == RESPONSE_SIZE
    ensures |Flatten(blocks)| == RESPONSE_SIZE * |blocks|
  {
    if blocks != [] {
      FlattenBlock(blocks, RESPONSE_SIZE, 0);
    }
  }

  /** worker.c:1143-1146: the reply's size, by each command's own length. */
  method ReplySize(commands: array<Mmc>, ghost cmds: seq<SdhciCommand>) returns (off: nat)
    requires |cmds| == commands.Length && forall i :: 0 <= i < |cmds| ==> commands[i].bufLen == cmds[i].bufLen
    ensures off == MULTI_SIZE + RESPONSE_SIZE * |cmds| + Sum(BufLens(cmds))
  {
    off := MULTI_SIZE + RESPONSE_SIZE * commands.Length;
    ghost var lens := BufLens(cmds);
    for n := 0 to commands.Length
      invariant off == MULTI_SIZE + RESPONSE_SIZE * |cmds| + Sum(lens[..n])
    {
      SumNext(lens, n);
      off := off + commands[n].bufLen;
    }
    assert lens[..|lens|] == lens;
  }

  /** worker.c:1171-1178, one slot. */
  method StoreResponse(order: ByteOrder, out: array<Byte>, at: nat, m: Mmc, duration: U32, sense: U32, ret: int,
                       ghost g: Fill)
    returns (ghost g': Fill)
    requires g.Over(out) && at == HEADER_SIZE + |g.body| && at + RESPONSE_SIZE <= out.Length
    modifies out
    ensures g' == g.(body := g.body + EncodeResponse(m.bufLen, m.response, duration, sense, Bits32(ret)))
    ensures g'.Over(out)
  {
    hide LeBytes;
    g' := StoreLe32(order, out, at, m.bufLen, g);
    g' := StoreLe32(order, out, at + 4, m.response.w0, g');
    g' := StoreLe32(order, out, at + 8, m.response.w1, g');
    g' := StoreLe32(order, out, at + 12, m.response.w2, g');
    g' := StoreLe32(order, out, at + 16, m.response.w3, g');
    g' := StoreLe32(order, out, at + 20, duration, g');
    g' := StoreLe32(order, out, at + 24, sense, g');
    g' := StoreLe32(order, out, at + 28, Bits32(ret), g');
    assert g'.body == g.body + EncodeResponse(m.bufLen, m.response, duration, sense, Bits32(ret));
  }

  /** worker.c:1181-1188 as shipped: the length of command 0 in every round. */
  method CopyPayloads(out: array<Byte>, start: nat, mem: seq<Byte>, commands: array<Mmc>, ghost cmds: seq<SdhciCommand>)
    requires |cmds| == commands.Length && PayloadEnd(cmds) <= |mem|
    requires forall i :: 0 <= i < |cmds| ==>
               commands[i].bufLen == cmds[i].bufLen && commands[i].buffer == PayloadOffset(cmds, i)
    requires out.Length == start + Sum(BufLens(cmds)) && MultiCopy.Safe(BufLens(cmds), |mem| - DataStart(|cmds|))
    modifies out
    ensures out[..start] == old(out[..start])
    ensures out[start..] == MultiCopy.Shipped(BufLens(cmds), |cmds|, mem[DataStart(|cmds|)..], old(out[start..]))
  {
    hide Sum, Splice;
    ghost var lens := BufLens(cmds);
    ghost var src, dst := mem[DataStart(|cmds|)..], out[start..];
    ghost var front := out[..start];
    var off := start;
    for n := 0 to commands.Length
      invariant n > 0 ==> off == start + MultiCopy.Steps(n, lens[0])
      invariant n == 0 ==> off == start
      invariant out[..start] == front
      invariant out[start..] == MultiCopy.Shipped(lens, n, src, dst)
    {
      MultiCopy.InBounds(lens, |src|, n);
      CopyRound(out, start, off, mem, commands[n].buffer, commands[0].bufLen, cmds, n);
      off := off + commands[0].bufLen;
    }
  }

  method CopyRound(out: array<Byte>, start: nat, off: nat, mem: seq<Byte>, from: nat, len: nat,
                   ghost cmds: seq<SdhciCommand>, ghost n: nat)
    requires n < |cmds| && PayloadEnd(cmds) <= |mem| && from == PayloadOffset(cmds, n)
    requires DataStart(|cmds|) + Sum(BufLens(cmds)[..n]) + len <= |mem|
    requires start <= off && off + len <= out.Length
    modifies out
    ensures out[..start] == old(out[..start])
    ensures var at := Sum(BufLens(cmds)[..n]);
            out[start..] == Splice(old(out[start..]), off - start, mem[DataStart(|cmds|)..][at..at + len])
  {
    hide Sum, Splice;
    ghost var before, at := out[..], Sum(BufLens(cmds)[..n]);
    Memcpy(out, off, mem, from, len);
    SliceOfSlice(mem, DataStart(|cmds|), |mem|, at, at + len);
    assert mem[DataStart(|cmds|)..|mem|] == mem[DataStart(|cmds|)..];
    SpliceBehind(before, start, off, mem[from..from + len]);
    assert before[start..] == old(out[start..]) && out[start..] == out[..][start..];
    assert before[..start] == old(out[..start]) && out[..start] == out[..][..start];
  }

  method Memcpy(out: array<Byte>, to: nat, mem: seq<Byte>, from: nat, len: nat)
    requires to + len <= out.Length && from + len <= |mem|
    modifies out
    ensures out[..] == Splice(old(out[..]), to, mem[from..from + len])
  {
    ghost var before := out[..];
    forall i | 0 <= i < len {
      out[to + i] := mem[from + i];
    }
    assert out[..] == Splice(before, to, mem[from..from + len]);
  }
}
