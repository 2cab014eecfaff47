/** The reply builders of worker.c: each fills a malloc'd packet field by field, in host byte order plus swaps. */
module Replies {
  import opened Bytes
  import opened Layout
  import opened Endian
  import opened Packets
  import opened Backend
  import opened Ata
  import opened Sdhci
  import opened MultiSdhci
  import opened Buffers
  import opened Server
  import MultiCopy
  import ListDevices

  /** The arms that encode with le32toh (worker.c:884-886 and 962-964): the same swap by its other name. */
  method StoreLeToH32(order: ByteOrder, out: array<Byte>, off: nat, x: U32, ghost g: Fill) returns (ghost g': Fill)
    requires g.Over(out) && off == HEADER_SIZE + |g.body| && off + 4 <= out.Length
    modifies out
    ensures g' == g.(body := g.body + LeBytes(x, 4)) && g'.Over(out)
  {
    hide LeBytes, Image;
    StoreLe32Image(order, x);
    g' := StoreWord(order, out, off, LeToH32(order, x), 4, g);
  }

  /** htole32 undoes htole32: how the ATA CHS arm gets buf_len back for its copy (worker.c:801-803). */
  lemma HToLe32Twice(order: ByteOrder, x: U32)
    ensures HToLe32(order, HToLe32(order, x)) == x
  {
    BSwapInvolution32(x);
  }

  lemma EmptyFront(s: seq<Byte>)
    ensures [] + s == s
  {
  }

  /** worker.c:517-533. */
  method BuildScsi(order: ByteOrder, out: array<Byte>, r: ScsiResult)
    requires out.Length == 36 + |r.senseData| + |r.buffer| < 0x1_0000_0000
    modifies out
    ensures Canonical(out[..]) == Reply(RESPONSE_SCSI, ScsiBody(r)).Encode()
  {
    hide LeBytes, Fill.Over, HeaderBytes;
    ghost var s0, s1 := out[14], out[15];
    ghost var g := StoreHeader(order, out, out.Length, RESPONSE_SCSI);
    g := StoreLe32(order, out, 16, |r.senseData|, g);
    g := StoreLe32(order, out, 20, |r.buffer|, g);
    g := StoreLe32(order, out, 24, r.duration, g);
    g := StoreLe32(order, out, 28, r.sense, g);
    g := StoreLe32(order, out, 32, Bits32(r.ret), g);
    g := StoreBytes(out, 36, r.senseData, g);
    g := StoreBytes(out, 36 + |r.senseData|, r.buffer, g);
    EmptyFront(LeBytes(|r.senseData|, 4));
    CompleteOver(out, g, RESPONSE_SCSI, s0, s1, ScsiBody(r));
  }

  lemma CompleteOver(out: array<Byte>, g: Fill, ptype: Byte, s0: Byte, s1: Byte, body: seq<Byte>)
    requires g.Over(out) && out.Length == HEADER_SIZE + |g.body| && g.body == body
    requires g.header == HeaderBytes(out.Length, PACKET_VERSION, ptype, s0, s1)
    ensures Canonical(out[..]) == Reply(ptype, body).Encode()
  {
    Complete(g, out[..], ptype, s0, s1);
  }

  /** worker.c:440-447. */
  method BuildDevType(order: ByteOrder, out: array<Byte>, deviceType: int)
    requires out.Length == 20
    modifies out
    ensures Canonical(out[..]) == Reply(RESPONSE_GET_DEVTYPE, LeBytes(Bits32(deviceType), 4)).Encode()
  {
    hide LeBytes, Fill.Over, HeaderBytes;
    ghost var s0, s1 := out[14], out[15];
    ghost var g := StoreHeader(order, out, 20, RESPONSE_GET_DEVTYPE);
    g := StoreLe32(order, out, 16, Bits32(deviceType), g);
    EmptyFront(LeBytes(Bits32(deviceType), 4));
    CompleteOver(out, g, RESPONSE_GET_DEVTYPE, s0, s1, LeBytes(Bits32(deviceType), 4));
  }

  /** worker.c:566-611: at most 16, 16, 4 and 8 bytes are kept, and the clamped lengths reported. */
  method BuildRegisters(order: ByteOrder, out: array<Byte>, r: Registers)
    requires out.Length == 77
    modifies out
    ensures Canonical(out[..]) == Reply(RESPONSE_GET_SDHCI_REGISTERS, RegistersBody(r)).Encode()
  {
    hide LeBytes, Fill.Over, HeaderBytes, Padded;
    ghost var s0, s1 := out[14], out[15];
    ghost var g := StoreHeader(order, out, 77, RESPONSE_GET_SDHCI_REGISTERS);
    g := StoreByte(out, 16, r.isSdhci % 0x100, g);
    g := StoreBytes(out, 17, Padded(r.csd, 16), g);
    g := StoreBytes(out, 33, Padded(r.cid, 16), g);
    g := StoreBytes(out, 49, Padded(r.ocr, 4), g);
    g := StoreBytes(out, 53, Padded(r.scr, 8), g);
    g := StoreLe32(order, out, 61, Min(|r.csd|, 16), g);
    g := StoreLe32(order, out, 65, Min(|r.cid|, 16), g);
    g := StoreLe32(order, out, 69, Min(|r.ocr|, 4), g);
    g := StoreLe32(order, out, 73, Min(|r.scr|, 8), g);
    EmptyFront([r.isSdhci % 0x100]);
    CompleteOver(out, g, RESPONSE_GET_SDHCI_REGISTERS, s0, s1, RegistersBody(r));
  }

  /** worker.c:645-662. */
  method BuildUsb(order: ByteOrder, out: array<Byte>, d: UsbData)
    requires out.Length == 66327
    modifies out
    ensures Canonical(out[..]) == Reply(RESPONSE_GET_USB_DATA, UsbBody(order, d)).Encode()
  {
    hide LeBytes, Fill.Over, HeaderBytes, Image, MisSized;
    ghost var s0, s1 := out[14], out[15];
    ghost var g := StoreHeader(order, out, 66327, RESPONSE_GET_USB_DATA);
    g := StoreByte(out, 16, d.isUsb, g);
    g := StoreWord(order, out, 17, MisSized(order, d.descLen), 2, g);
    g := StoreBytes(out, 19, d.descriptors, g);
    g := StoreWord(order, out, 65555, d.idVendor, 2, g);
    g := StoreWord(order, out, 65557, d.idProduct, 2, g);
    g := StoreBytes(out, 65559, d.manufacturer, g);
    g := StoreBytes(out, 65815, d.product, g);
    g := StoreBytes(out, 66071, d.serial, g);
    EmptyFront([d.isUsb]);
    CompleteOver(out, g, RESPONSE_GET_USB_DATA, s0, s1, UsbBody(order, d));
  }

  /** worker.c:691-702: nothing is swapped. */
  method BuildFireWire(order: ByteOrder, out: array<Byte>, d: FireWireData)
    requires out.Length == 545
    modifies out
    ensures Canonical(out[..]) == Reply(RESPONSE_GET_FIREWIRE_DATA, FireWireBody(order, d)).Encode()
  {
    hide LeBytes, Fill.Over, HeaderBytes, Image;
    ghost var s0, s1 := out[14], out[15];
    ghost var g := StoreHeader(order, out, 545, RESPONSE_GET_FIREWIRE_DATA);
    g := StoreByte(out, 16, d.isFireWire, g);
    g := StoreWord(order, out, 17, d.idModel, 4, g);
    g := StoreWord(order, out, 21, d.idVendor, 4, g);
    g := StoreWord(order, out, 25, d.guid, 8, g);
    g := StoreBytes(out, 33, d.vendor, g);
    g := StoreBytes(out, 289, d.model, g);
    EmptyFront([d.isFireWire]);
    CompleteOver(out, g, RESPONSE_GET_FIREWIRE_DATA, s0, s1, FireWireBody(order, d));
  }

  /** worker.c:733-742. */
  method BuildPcmcia(order: ByteOrder, out: array<Byte>, d: PcmciaData)
    requires out.Length == 65555
    modifies out
    ensures Canonical(out[..]) == Reply(RESPONSE_GET_PCMCIA_DATA, PcmciaBody(order, d)).Encode()
  {
    hide LeBytes, Fill.Over, HeaderBytes, Image, MisSized;
    ghost var s0, s1 := out[14], out[15];
    ghost var g := StoreHeader(order, out, 65555, RESPONSE_GET_PCMCIA_DATA);
    g := StoreByte(out, 16, d.isPcmcia, g);
    g := StoreWord(order, out, 17, MisSized(order, d.cisLen), 2, g);
    g := StoreBytes(out, 19, d.cis, g);
    EmptyFront([d.isPcmcia]);
    CompleteOver(out, g, RESPONSE_GET_PCMCIA_DATA, s0, s1, PcmciaBody(order, d));
  }

  /** worker.c:1077-1083: am_i_root is stored as the host has it. */
  method BuildAmIRoot(order: ByteOrder, out: array<Byte>, root: Byte)
    requires out.Length == 20
    modifies out
    ensures Canonical(out[..]) == Reply(RESPONSE_AM_I_ROOT, Image(order, root, 4)).Encode()
  {
    hide LeBytes, Fill.Over, HeaderBytes, Image;
    ghost var s0, s1 := out[14], out[15];
    ghost var g := StoreHeader(order, out, 20, RESPONSE_AM_I_ROOT);
    g := StoreWord(order, out, 16, root, 4, g);
    EmptyFront(Image(order, root, 4));
    CompleteOver(out, g, RESPONSE_AM_I_ROOT, s0, s1, Image(order, root, 4));
  }

  /** worker.c:800-813 and 871-886; `field` is buf_len as it lies in the request, already swapped to the wire. */
  method BuildAta28(order: ByteOrder, out: array<Byte>, lba: bool, r: AtaResult<Errors28>, field: U32)
    requires |r.buffer| < 0x1_0000_0000 && field == HToLe32(order, |r.buffer|)
    requires out.Length == 39 + HToLe32(order, field) as int < 0x1_0000_0000
    modifies out
    ensures Canonical(out[..])
            == Reply(if lba then RESPONSE_ATA_LBA_28 else RESPONSE_ATA_CHS, Ata28Body(r)).Encode()
  {
    hide LeBytes, Fill.Over, HeaderBytes, HToLe32, Image;
    HToLe32Twice(order, |r.buffer|);
    var t := if lba then RESPONSE_ATA_LBA_28 else RESPONSE_ATA_CHS;
    ghost var s0, s1 := out[14], out[15];
    ghost var g := StoreHeader(order, out, out.Length, t);
    StoreLe32Image(order, |r.buffer|);
    g := StoreWord(order, out, 16, field, 4, g);
    g := StoreBytes(out, 20, ErrorBytes28(r.errors), g);
    if lba {
      g := StoreLeToH32(order, out, 27, r.duration, g);
      g := StoreLeToH32(order, out, 31, r.sense, g);
      g := StoreLeToH32(order, out, 35, Bits32(r.ret), g);
    } else {
      g := StoreLe32(order, out, 27, r.duration, g);
      g := StoreLe32(order, out, 31, r.sense, g);
      g := StoreLe32(order, out, 35, Bits32(r.ret), g);
    }
    g := StoreBytes(out, 39, r.buffer, g);
    EmptyFront(LeBytes(|r.buffer|, 4));
    CompleteOver(out, g, t, s0, s1, Ata28Body(r));
  }

  /** worker.c:946-964. */
  method BuildAta48(order: ByteOrder, out: array<Byte>, r: AtaResult<Errors48>, field: U32)
    requires |r.buffer| < 0x1_0000_0000 && field == HToLe32(order, |r.buffer|)
    requires out.Length == 43 + LeToH32(order, field) as int < 0x1_0000_0000
    modifies out
    ensures Canonical(out[..]) == Reply(RESPONSE_ATA_LBA_48, Ata48Body(r)).Encode()
  {
    HToLe32Twice(order, |r.buffer|);
    assert out.Length == 43 + |r.buffer|;
    hide LeBytes, Fill.Over, HeaderBytes, HToLe32, HToLe16, Image;
    var e := r.errors;
    ghost var s0, s1 := out[14], out[15];
    ghost var g := StoreHeader(order, out, out.Length, RESPONSE_ATA_LBA_48);
    StoreLe32Image(order, |r.buffer|);
    g := StoreWord(order, out, 16, field, 4, g);
    g := StoreErrors48(order, out, e, g);
    g := StoreLeToH32(order, out, 31, r.duration, g);
    g := StoreLeToH32(order, out, 35, r.sense, g);
    g := StoreLeToH32(order, out, 39, Bits32(r.ret), g);
    g := StoreBytes(out, 43, r.buffer, g);
    EmptyFront(LeBytes(|r.buffer|, 4));
    CompleteOver(out, g, RESPONSE_ATA_LBA_48, s0, s1, Ata48Body(r));
  }

  /** worker.c:957-960: sector_count swapped, the structure copied. */
  method StoreErrors48(order: ByteOrder, out: array<Byte>, e: Errors48, ghost g: Fill) returns (ghost g': Fill)
    requires g.Over(out) && |g.body| == 4 && out.Length >= 31
    modifies out
    ensures g' == g.(body := g.body + ErrorBytes48(e)) && g'.Over(out)
  {
    hide LeBytes, Fill.Over;
    g' := StoreBytes(out, 20, [e.status, e.error], g);
    g' := StoreLe16(order, out, 22, e.count, g');
    g' := StoreBytes(out, 24, [e.lowPrev, e.low, e.midPrev, e.mid, e.highPrev, e.high, e.deviceHead], g');
    assert g'.body == g.body + ErrorBytes48(e);
  }

  /** worker.c:1022-1042. */
  method BuildSdhci(order: ByteOrder, out: array<Byte>, r: SdhciResult)
    requires out.Length == 48 + |r.buffer| < 0x1_0000_0000
    modifies out
    ensures Canonical(out[..]) == Reply(RESPONSE_SDHCI, SdhciBody(|r.buffer|, r)).Encode()
  {
    hide LeBytes, Fill.Over, HeaderBytes, EncodeResponse;
    ghost var s0, s1 := out[14], out[15];
    ghost var g := StoreHeader(order, out, out.Length, RESPONSE_SDHCI);
    var m := ZERO_MMC.(bufLen := |r.buffer|, response := r.response);
    g := StoreResponse(order, out, 16, m, r.duration, r.sense, r.ret, g);
    g := StoreBytes(out, 48, r.buffer, g);
    EmptyFront(EncodeResponse(|r.buffer|, r.response, r.duration, r.sense, Bits32(r.ret)));
    CompleteOver(out, g, RESPONSE_SDHCI, s0, s1, SdhciBody(|r.buffer|, r));
  }

  /** worker.c:1278-1288. */
  method BuildOsRead(order: ByteOrder, out: array<Byte>, ret: int, data: seq<Byte>)
    requires out.Length == 24 + |data| < 0x1_0000_0000
    modifies out
    ensures Canonical(out[..])
            == Reply(RESPONSE_OSREAD, LeBytes(Bits32(ret), 4) + LeBytes(0, 4) + data).Encode()
  {
    hide LeBytes, Fill.Over, HeaderBytes;
    ghost var s0, s1 := out[14], out[15];
    ghost var g := StoreHeader(order, out, out.Length, RESPONSE_OSREAD);
    g := StoreLe32(order, out, 16, Bits32(ret), g);
    g := StoreLe32(order, out, 20, 0, g);
    g := StoreBytes(out, 24, data, g);
    EmptyFront(LeBytes(Bits32(ret), 4));
    CompleteOver(out, g, RESPONSE_OSREAD, s0, s1, LeBytes(Bits32(ret), 4) + LeBytes(0, 4) + data);
  }

  /** worker.c:345-366. */
  method BuildList(order: ByteOrder, out: array<Byte>, start: ListDevices.Node?)
    requires ListDevices.ValidList(start) && |ListDevices.ListOf(start)| < 0x1_0000
    requires out.Length == 18 + |ListDevices.ListOf(start)| * DEVICE_INFO_SIZE
    modifies out
    ensures Canonical(out[..])
            == Reply(RESPONSE_LIST_DEVICES, ListDevices.ListBody(ListDevices.ListOf(start))).Encode()
  {
    hide LeBytes, Fill.Over, HeaderBytes, Flatten;
    ghost var devices := ListDevices.ListOf(start);
    var count := ListDevices.DeviceInfoListCount(start);
    ghost var s0, s1 := out[14], out[15];
    ghost var g := StoreHeader(order, out, out.Length, RESPONSE_LIST_DEVICES);
    g := StoreLe16(order, out, 16, count, g);
    EmptyFront(LeBytes(count, 2));
    var end;
    end, g := ListDevices.CopyList(out, 18, start, g);
    ListDevices.FlattenLength(devices);
    CompleteOver(out, g, RESPONSE_LIST_DEVICES, s0, s1, ListDevices.ListBody(devices));
  }

  /** worker.c:1160-1179: header, count and one response slot per command. */
  method BuildMultiHead(order: ByteOrder, out: array<Byte>, commands: array<Mmc>, ghost cmds: seq<SdhciCommand>,
                        ghost r: MultiResult, duration: U32, sense: U32, ret: int)
    returns (ghost g: Fill)
    requires |r.responses| == |cmds| == commands.Length
    requires out.Length < 0x1_0000_0000 && MULTI_SIZE + RESPONSE_SIZE * |cmds| <= out.Length
    requires r.duration == duration && r.sense == sense && r.ret == ret
    requires forall i :: 0 <= i < |cmds| ==>
               commands[i].bufLen == cmds[i].bufLen && commands[i].response == r.responses[i]
    modifies out
    ensures g == Fill(old(out[..]),
                      HeaderBytes(out.Length, PACKET_VERSION, RESPONSE_MULTI_SDHCI, old(out[14]), old(out[15])),
                      MultiReplyHead(cmds, r))
    ensures g.Over(out)
  {
    hide LeBytes, Fill.Over, HeaderBytes, EncodeResponse, Flatten;
    g := StoreHeader(order, out, out.Length, RESPONSE_MULTI_SDHCI);
    ghost var start := g;
    g := StoreLe64(order, out, 16, commands.Length, g);
    EmptyFront(LeBytes(|cmds|, 8));
    ghost var blocks := ResponseBlocks(cmds, r);
    FrontStart(LeBytes(|cmds|, 8), blocks);
    for n := 0 to commands.Length
      invariant g == start.(body := Front(LeBytes(|cmds|, 8), blocks, n)) && g.Over(out)
      invariant HEADER_SIZE + |g.body| == MULTI_SIZE + RESPONSE_SIZE * n
    {
      g := StoreResponse(order, out, MULTI_SIZE + RESPONSE_SIZE * n, commands[n], duration, sense, ret, g);
      FrontNext(LeBytes(|cmds|, 8), blocks, n);
    }
    FrontEnd(LeBytes(|cmds|, 8), blocks);
  }

  function Front(first: seq<Byte>, blocks: seq<seq<Byte>>, n: nat): seq<Byte>
    requires n <= |blocks|
  {
    first + Flatten(blocks[..n])
  }

  lemma FrontStart(first: seq<Byte>, blocks: seq<seq<Byte>>)
    ensures Front(first, blocks, 0) == first
  {
  }

  lemma FrontNext(first: seq<Byte>, blocks: seq<seq<Byte>>, n: nat)
    requires n < |blocks|
    ensures Front(first, blocks, n + 1) == Front(first, blocks, n) + blocks[n]
  {
    assert blocks[..n + 1] == blocks[..n] + [blocks[n]];
    FlattenSnoc(blocks[..n], blocks[n]);
  }

  lemma FrontEnd(first: seq<Byte>, blocks: seq<seq<Byte>>)
    ensures Front(first, blocks, |blocks|) == first + Flatten(blocks)
  {
    assert blocks[..|blocks|] == blocks;
  }

  /** worker.c:1148-1188. `mem` is the request packet with the data area as the device left it. */
  method BuildMulti(order: ByteOrder, out: array<Byte>, mem: seq<Byte>, commands: array<Mmc>,
                    ghost cmds: seq<SdhciCommand>, ghost r: MultiResult, duration: U32, sense: U32, ret: int)
    requires |r.responses| == |cmds| == commands.Length && PayloadEnd(cmds) <= |mem|
    requires out.Length == MULTI_SIZE + RESPONSE_SIZE * |cmds| + Sum(BufLens(cmds)) < 0x1_0000_0000
    requires r.duration == duration && r.sense == sense && r.ret == ret
    requires MultiCopy.Safe(BufLens(cmds), |mem| - DataStart(|cmds|))
    requires forall i :: 0 <= i < |cmds| ==>
               && commands[i].bufLen == cmds[i].bufLen && commands[i].buffer == PayloadOffset(cmds, i)
               && commands[i].response == r.responses[i]
    modifies out
    ensures Canonical(out[..])
            == Reply(RESPONSE_MULTI_SDHCI,
                     MultiReplyHead(cmds, r)
                     + MultiCopy.Shipped(BufLens(cmds), |cmds|, mem[DataStart(|cmds|)..],
                                         old(out[MULTI_SIZE + RESPONSE_SIZE * |cmds|..]))).Encode()
  {
    hide LeBytes, HeaderBytes, MultiReplyHead, Sum, BufLens, PayloadOffset, MultiCopy.Shipped, MultiCopy.Safe,
         Canonical, Fill.Now;
    ghost var s0, s1 := out[14], out[15];
    var start := MULTI_SIZE + RESPONSE_SIZE * commands.Length;
    ghost var dst := out[start..];
    assert dst == out[..][start..];
    ghost var g := BuildMultiHead(order, out, commands, cmds, r, duration, sense, ret);
    ghost var filled := out[..];
    FrontOf(g, filled, dst);
    assert out[start..] == filled[start..] && out[..start] == filled[..start];
    CopyPayloads(out, start, mem, commands, cmds);
    ghost var done := out[..];
    assert out[start..] == done[start..] && out[..start] == done[..start];
    AreaFilled(g, done, out[start..]);
    g := g.(body := g.body + out[start..]);
    CompleteOver(out, g, RESPONSE_MULTI_SDHCI, s0, s1, MultiReplyHead(cmds, r) + out[start..]);
  }

  lemma FrontOf(g: Fill, s: seq<Byte>, rest: seq<Byte>)
    requires g.Fits() && s == g.Now() && rest == g.before[HEADER_SIZE + |g.body|..]
    ensures s[..HEADER_SIZE + |g.body|] == g.header + g.body && s[HEADER_SIZE + |g.body|..] == rest
  {
  }

  /** Whatever is stored behind a filled front completes the packet. */
  lemma AreaFilled(g: Fill, s: seq<Byte>, rest: seq<Byte>)
    requires g.Fits() && |s| == |g.before| && s[..HEADER_SIZE + |g.body|] == g.header + g.body
    requires rest == s[HEADER_SIZE + |g.body|..]
    ensures var g' := g.(body := g.body + rest);
            g'.Fits() && s == g'.Now() && |g'.before| == HEADER_SIZE + |g'.body|
  {
    assert s == (g.header + g.body) + rest;
    assert g.header + (g.body + rest) == (g.header + g.body) + rest;
  }
}
