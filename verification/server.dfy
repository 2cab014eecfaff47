/**
 * What the server does, frame by frame: a pure function from the state it keeps between packets and one
 * client packet to the next state and the reply. Offsets are those of the packed structs of aaruremote.h.
 */
module Server {
  import opened Bytes
  import opened Layout
  import opened Endian
  import opened Packets
  import opened Devices
  import opened Backend
  import opened Ata
  import opened Sdhci
  import opened MultiSdhci
  import MultiCopy
  import ListDevices

  /** The machine the server is compiled for. */
  datatype Host = Host(order: ByteOrder, charSigned: bool)

  /**
   * What outlives a packet, and a client: the open device, the kernel's view, and the four bytes of
   * `error_no` in the one NOP packet the server reuses for every NOP it sends.
   */
  datatype ServerState = ServerState(ctx: Option<Ctx>, os: Os, nopError: seq<Byte>)

  datatype Outcome = Outcome(state: ServerState, replies: seq<Reply>)

  // NOP packets.

  function Ascii(s: string): (b: seq<Byte>)
    ensures |b| == |s|
  {
    seq(|s|, i requires 0 <= i < |s| => s[i] as int % 0x100)
  }

  /** A fixed-size char array filled from the front and zero behind. */
  function Padded(b: seq<Byte>, size: nat): (s: seq<Byte>)
    ensures |s| == size
  {
    if |b| <= size then b + Zeros(size - |b|) else b[..size]
  }

  function Decimal(n: nat): (s: string)
  {
    (if n < 10 then "" else Decimal(n / 10)) + ["0123456789"[n % 10]]
  }

  /** "%d" of an int8_t. */
  function PrintedType(t: Byte): string
  {
    if t < 0x80 then Decimal(t) else "-" + Decimal(0x100 - t as int)
  }

  const OOO_HELLO := "Received hello packet out of order, skipping..."
  const OOO_RESPONSE := "Received response packet?! You should certainly not do that..."
  const NO_DEVICE_LIST := "Could not get device list, continuing..."

  function NotRecognized(t: Byte): string
  {
    "Received unrecognized packet with type " + PrintedType(t) + ", skipping..."
  }

  function NopBody(reason: Byte, text: string, error: seq<Byte>): (s: seq<Byte>)
    ensures |s| == 260 + |error|
  {
    [reason, 0, 0, 0] + Padded(Ascii(text), 256) + error
  }

  function Nop(reason: Byte, text: string, error: seq<Byte>): Reply
  {
    Reply(NOP, NopBody(reason, text, error))
  }

  // What each request must hold for its handler to stay inside the packet, and for sizes to stay in int32_t.

  const INT32_LIMIT := 0x8000_0000

  /** The strings printed from a client's hello end inside it: the last one starts at offset 724 of the 980 bytes. */
  predicate HelloOk(p: seq<Byte>) { |p| >= HELLO_SIZE && 0 in p[724..] }

  predicate OpenOk(p: seq<Byte>) { |p| >= 16 && 0 in p[16..] }

  predicate ScsiOk(p: seq<Byte>)
  {
    && |p| >= 32 && 32 + U32At(p, 16) as int + U32At(p, 20) as int <= |p|
    && 36 + SENSE_SIZE + U32At(p, 20) as int < INT32_LIMIT
  }

  predicate Ata28Ok(p: seq<Byte>)
  {
    |p| >= 35 && 35 + U32At(p, 16) as int <= |p| && 39 + U32At(p, 16) as int < INT32_LIMIT
  }

  predicate Ata48Ok(p: seq<Byte>)
  {
    |p| >= 40 && 40 + U32At(p, 16) as int <= |p| && 43 + U32At(p, 16) as int < INT32_LIMIT
  }

  predicate SdhciOk(p: seq<Byte>)
  {
    |p| >= 43 && 43 + U32At(p, 35) as int <= |p| && 48 + U32At(p, 35) as int < INT32_LIMIT
  }

  /** The shipped copy of the reply, which takes command 0's length for all, stays inside request and reply. */
  predicate MultiOk(p: seq<Byte>)
  {
    && MultiFits(p)
    && MultiCopy.Safe(BufLens(Commands(p)), |p| - DataStart(Count(p)))
    && MULTI_SIZE + RESPONSE_SIZE * Count(p) as int + Sum(BufLens(Commands(p))) < INT32_LIMIT
  }

  predicate OsReadOk(p: seq<Byte>) { |p| >= 28 && 24 + U32At(p, 24) as int < INT32_LIMIT }

  predicate IsTransfer(t: Byte)
  {
    t in {COMMAND_SCSI, COMMAND_ATA_CHS, COMMAND_ATA_LBA_28, COMMAND_ATA_LBA_48, COMMAND_SDHCI, MULTI_COMMAND_SDHCI,
          COMMAND_OSREAD}
  }

  predicate TransferOk(t: Byte, p: seq<Byte>)
    requires IsTransfer(t)
  {
    if t == COMMAND_SCSI then ScsiOk(p)
    else if t == COMMAND_ATA_CHS || t == COMMAND_ATA_LBA_28 then Ata28Ok(p)
    else if t == COMMAND_ATA_LBA_48 then Ata48Ok(p)
    else if t == COMMAND_SDHCI then SdhciOk(p)
    else if t == MULTI_COMMAND_SDHCI then MultiOk(p)
    else OsReadOk(p)
  }

  /** The packets whose handler looks behind the header. */
  predicate ReadsBody(f: Frame)
  {
    f.version == PACKET_VERSION && (f.ptype == COMMAND_OPEN_DEVICE || IsTransfer(f.ptype))
  }

  predicate FrameOk(f: Frame)
  {
    f.version == PACKET_VERSION ==>
      && (f.ptype == COMMAND_OPEN_DEVICE ==> OpenOk(f.Encode()))
      && (IsTransfer(f.ptype) ==> TransferOk(f.ptype, f.Encode()))
  }

  // The arms of the dispatch.

  function CString(b: seq<Byte>): (s: seq<Byte>)
  {
    if b == [] || b[0] == 0 then [] else [b[0]] + CString(b[1..])
  }

  function OpenStep(h: Host, b: Backend, st: ServerState, p: seq<Byte>): (ServerState, Reply)
    requires OpenOk(p)
  {
    var r := Opened(b.kernel, st.os, CString(p[16..]));
    var error := Image(h.order, Bits32(r.0.errno), 4);
    (ServerState(r.1, r.0, error), Nop(if r.1.None? then REASON_OPEN_ERROR else REASON_OPEN_OK, "", error))
  }

  function ReOpenStep(b: Backend, st: ServerState): (ServerState, Reply)
  {
    var r := ReOpened(b.kernel, st.os, st.ctx);
    var error := if r.ret != 0 then LeBytes(Bits32(r.ret), 4) else Zeros(4);
    var reason := if r.ret == 0 then REASON_REOPEN_OK
                  else if r.closeFailed != 0 then REASON_CLOSE_ERROR else REASON_OPEN_ERROR;
    (ServerState(r.ctx, r.os, error), Nop(reason, "", error))
  }

  function ListStep(b: Backend, st: ServerState): (ServerState, Reply)
  {
    var devices := b.listDevices(st.os.tick);
    (st.(os := b.Tick(st.os)),
     if devices == [] then Nop(REASON_ERROR_LIST_DEVICES, NO_DEVICE_LIST, st.nopError)
     else Reply(RESPONSE_LIST_DEVICES, ListDevices.ListBody(devices)))
  }

  function DevTypeStep(b: Backend, st: ServerState): (ServerState, Reply)
  {
    (st.(os := b.Tick(st.os)),
     Reply(RESPONSE_GET_DEVTYPE, LeBytes(Bits32(b.deviceType(st.os.tick, st.ctx)), 4)))
  }

  function ScsiBody(r: ScsiResult): (s: seq<Byte>)
    ensures |s| == 20 + |r.senseData| + |r.buffer|
  {
    LeBytes(|r.senseData|, 4) + LeBytes(|r.buffer|, 4) + LeBytes(r.duration, 4) + LeBytes(r.sense, 4)
    + LeBytes(Bits32(r.ret), 4) + r.senseData + r.buffer
  }

  function ScsiRequest(p: seq<Byte>): ScsiArgs
    requires ScsiOk(p)
  {
    var cdbLen: nat, bufLen: nat := U32At(p, 16), U32At(p, 20);
    ScsiArgs(p[32..32 + cdbLen], p[32 + cdbLen..32 + cdbLen + bufLen], U32At(p, 28), U32At(p, 24))
  }

  function ScsiStep(b: Backend, st: ServerState, p: seq<Byte>): (ServerState, Reply)
    requires ScsiOk(p)
  {
    (st.(os := b.Tick(st.os)), Reply(RESPONSE_SCSI, ScsiBody(b.Scsi(st.os.tick, st.ctx, ScsiRequest(p)))))
  }

  function RegistersBody(r: Registers): (s: seq<Byte>)
    ensures |s| == 61
  {
    [r.isSdhci % 0x100] + Padded(r.csd, 16) + Padded(r.cid, 16) + Padded(r.ocr, 4) + Padded(r.scr, 8)
    + LeBytes(Min(|r.csd|, 16), 4) + LeBytes(Min(|r.cid|, 16), 4)
    + LeBytes(Min(|r.ocr|, 4), 4) + LeBytes(Min(|r.scr|, 8), 4)
  }

  function RegistersStep(b: Backend, st: ServerState): (ServerState, Reply)
  {
    (st.(os := b.Tick(st.os)),
     Reply(RESPONSE_GET_SDHCI_REGISTERS, RegistersBody(b.registers(st.os.tick, st.ctx))))
  }

  /** A 16-bit length put through htole32 and stored in 16 bits: worker.c:661 and 742. */
  function MisSized(order: ByteOrder, len: U16): U16
  {
    HToLe32(order, len) % 0x1_0000
  }

  function UsbBody(order: ByteOrder, d: UsbData): (s: seq<Byte>)
    ensures |s| == 66311
  {
    [d.isUsb] + Image(order, MisSized(order, d.descLen), 2) + d.descriptors + Image(order, d.idVendor, 2)
    + Image(order, d.idProduct, 2) + d.manufacturer + d.product + d.serial
  }

  function UsbStep(h: Host, b: Backend, st: ServerState): (ServerState, Reply)
  {
    (st.(os := b.Tick(st.os)), Reply(RESPONSE_GET_USB_DATA, UsbBody(h.order, b.usb(st.os.tick, st.ctx))))
  }

  function FireWireBody(order: ByteOrder, d: FireWireData): (s: seq<Byte>)
    ensures |s| == 529
  {
    [d.isFireWire] + Image(order, d.idModel, 4) + Image(order, d.idVendor, 4) + Image(order, d.guid, 8)
    + d.vendor + d.model
  }

  function FireWireStep(h: Host, b: Backend, st: ServerState): (ServerState, Reply)
  {
    (st.(os := b.Tick(st.os)),
     Reply(RESPONSE_GET_FIREWIRE_DATA, FireWireBody(h.order, b.fireWire(st.os.tick, st.ctx))))
  }

  function PcmciaBody(order: ByteOrder, d: PcmciaData): (s: seq<Byte>)
    ensures |s| == 65539
  {
    [d.isPcmcia] + Image(order, MisSized(order, d.cisLen), 2) + d.cis
  }

  function PcmciaStep(h: Host, b: Backend, st: ServerState): (ServerState, Reply)
  {
    var d := b.Pcmcia(st.os.tick, st.ctx);
    (st.(os := WithStreams(b.kernel, b.Tick(st.os), d.streams)),
     Reply(RESPONSE_GET_PCMCIA_DATA, PcmciaBody(h.order, d)))
  }

  function AmIRootStep(h: Host, b: Backend, st: ServerState): (ServerState, Reply)
  {
    (st.(os := b.Tick(st.os)), Reply(RESPONSE_AM_I_ROOT, Image(h.order, b.amIRoot(st.os.tick), 4)))
  }

  function Request28(p: seq<Byte>): Registers28
    requires |p| >= 35
  {
    Registers28(p[20], p[21], p[22], p[23], p[24], p[25], p[26])
  }

  function ErrorBytes28(e: Errors28): (s: seq<Byte>)
    ensures |s| == 7
  {
    [e.status, e.error, e.count, e.low, e.mid, e.high, e.deviceHead]
  }

  function Ata28Body(r: AtaResult<Errors28>): (s: seq<Byte>)
    ensures |s| == 23 + |r.buffer|
  {
    LeBytes(|r.buffer|, 4) + ErrorBytes28(r.errors) + LeBytes(r.duration, 4) + LeBytes(r.sense, 4)
    + LeBytes(Bits32(r.ret), 4) + r.buffer
  }

  function Ata28Step(b: Backend, st: ServerState, p: seq<Byte>, lba: bool): (ServerState, Reply)
    requires Ata28Ok(p)
  {
    var r := SendAta28Spec(b, st.os, st.ctx, Request28(p), lba, Transfer(p[27], p[28], p[29]),
                           p[35..35 + U32At(p, 16) as int], U32At(p, 31));
    (st.(os := r.os), Reply(if lba then RESPONSE_ATA_LBA_28 else RESPONSE_ATA_CHS, Ata28Body(r)))
  }

  /** worker.c:918 swaps sector_count but not feature, which the host reads in its own order. */
  function Request48(order: ByteOrder, p: seq<Byte>): Registers48
    requires |p| >= 40
  {
    LoadLe16(order, p[20..22]);
    Registers48(Word(order, p[20..22]), U16At(p, 22), p[24], p[25], p[26], p[27], p[28], p[29], p[30], p[31])
  }

  function ErrorBytes48(e: Errors48): (s: seq<Byte>)
    ensures |s| == 11
  {
    [e.status, e.error] + LeBytes(e.count, 2)
    + [e.lowPrev, e.low, e.midPrev, e.mid, e.highPrev, e.high, e.deviceHead]
  }

  function Ata48Body(r: AtaResult<Errors48>): (s: seq<Byte>)
    ensures |s| == 27 + |r.buffer|
  {
    LeBytes(|r.buffer|, 4) + ErrorBytes48(r.errors) + LeBytes(r.duration, 4) + LeBytes(r.sense, 4)
    + LeBytes(Bits32(r.ret), 4) + r.buffer
  }

  function Ata48Step(h: Host, b: Backend, st: ServerState, p: seq<Byte>): (ServerState, Reply)
    requires Ata48Ok(p)
  {
    var r := SendAta48Spec(b, h.charSigned, st.os, st.ctx, Request48(h.order, p), Transfer(p[32], p[33], p[34]),
                           p[40..40 + U32At(p, 16) as int], U32At(p, 36));
    (st.(os := r.os), Reply(RESPONSE_ATA_LBA_48, Ata48Body(r)))
  }

  function SdhciBody(bufLen: U32, r: SdhciResult): (s: seq<Byte>)
    ensures |s| == 32 + |r.buffer|
  {
    EncodeResponse(bufLen, r.response, r.duration, r.sense, Bits32(r.ret)) + r.buffer
  }

  function SdhciStep(b: Backend, st: ServerState, p: seq<Byte>): (ServerState, Reply)
    requires SdhciOk(p)
  {
    var c := CommandAt(p, 16);
    var r := b.Sdhci(st.os.tick, st.ctx, c, p[43..43 + c.bufLen as int]);
    (st.(os := b.Tick(st.os)), Reply(RESPONSE_SDHCI, SdhciBody(c.bufLen, r)))
  }

  function MultiResultOf(b: Backend, st: ServerState, p: seq<Byte>): (r: MultiResult)
    requires MultiFits(p)
    ensures |r.responses| == Count(p) && |r.area| == Sum(BufLens(Commands(p))) && r.os.SameTable(st.os)
  {
    var cmds := Commands(p);
    SendMultiSpec(b, st.os, st.ctx, Mmcs(cmds), p[DataStart(|cmds|)..PayloadEnd(cmds)])
  }

  /** What the payload area of a multi-SDHCI reply holds before anything is copied there. */
  function MultiLeftover(b: Backend, tick: nat, p: seq<Byte>): (s: seq<Byte>)
    requires MultiFits(p)
    ensures |s| == Sum(BufLens(Commands(p)))
  {
    var head := MULTI_SIZE + RESPONSE_SIZE * Count(p);
    b.Leftover(tick, head + Sum(BufLens(Commands(p))))[head..]
  }

  /** What the shipped copy reads: the request from its payload area on, as the device left it. */
  function CopySource(b: Backend, st: ServerState, p: seq<Byte>): (s: seq<Byte>)
    requires MultiFits(p)
    ensures |s| == |p| - DataStart(Count(p))
  {
    MultiResultOf(b, st, p).area + p[PayloadEnd(Commands(p))..]
  }

  lemma SourceFits(b: Backend, st: ServerState, p: seq<Byte>)
    requires MultiOk(p)
    ensures MultiCopy.Safe(BufLens(Commands(p)), |CopySource(b, st, p)|)
  {
    hide Count, Commands, BufLens, Sum, MultiCopy.Safe, MultiResultOf, CopySource;
  }

  /** The payload area of the reply as shipped. */
  function ShippedArea(b: Backend, st: ServerState, p: seq<Byte>): (s: seq<Byte>)
    requires MultiOk(p)
    ensures |s| == Sum(BufLens(Commands(p)))
  {
    SourceFits(b, st, p);
    MultiCopy.Shipped(BufLens(Commands(p)), |Commands(p)|, CopySource(b, st, p), MultiLeftover(b, st.os.tick, p))
  }

  function MultiStep(b: Backend, st: ServerState, p: seq<Byte>): (ServerState, Reply)
    requires MultiOk(p)
  {
    var r := MultiResultOf(b, st, p);
    (st.(os := r.os), Reply(RESPONSE_MULTI_SDHCI, MultiReplyHead(Commands(p), r) + ShippedArea(b, st, p)))
  }

  function OsReadStep(b: Backend, st: ServerState, p: seq<Byte>): (ServerState, Reply)
    requires OsReadOk(p)
  {
    var r := OsReadSpec(b.kernel, st.os, st.ctx, U64At(p, 16), U32At(p, 24));
    (st.(os := r.os), Reply(RESPONSE_OSREAD, LeBytes(Bits32(r.ret), 4) + LeBytes(0, 4) + r.data))
  }

  /** The response types worker.c:374-384 knows; the four newer ones fall through to "unrecognized". */
  predicate IsKnownResponse(t: Byte)
  {
    t in {RESPONSE_GET_SDHCI_REGISTERS, RESPONSE_LIST_DEVICES, RESPONSE_SCSI, RESPONSE_ATA_CHS, RESPONSE_ATA_LBA_28,
          RESPONSE_ATA_LBA_48, RESPONSE_SDHCI, RESPONSE_GET_DEVTYPE, RESPONSE_GET_USB_DATA,
          RESPONSE_GET_FIREWIRE_DATA, RESPONSE_GET_PCMCIA_DATA}
  }

  predicate IsLifeCycle(t: Byte)
  {
    t in {COMMAND_OPEN_DEVICE, COMMAND_CLOSE_DEVICE, COMMAND_REOPEN}
  }

  predicate IsQuery(t: Byte)
  {
    t in {COMMAND_LIST_DEVICES, COMMAND_GET_DEVTYPE, COMMAND_GET_SDHCI_REGISTERS, COMMAND_GET_USB_DATA,
          COMMAND_GET_FIREWIRE_DATA, COMMAND_GET_PCMCIA_DATA, COMMAND_AM_I_ROOT}
  }

  /** The packets handled without being consumed: the arms that set skip_next_hdr. */
  predicate Skips(version: Byte, t: Byte)
  {
    version != PACKET_VERSION || t == COMMAND_CLOSE_DEVICE || !(IsTransfer(t) || IsLifeCycle(t) || IsQuery(t))
  }

  function One(r: (ServerState, Reply)): Outcome
  {
    Outcome(r.0, [r.1])
  }

  /** The requests that consist of a header alone. */
  function QueryStep(h: Host, b: Backend, st: ServerState, t: Byte): (ServerState, Reply)
    requires IsQuery(t)
  {
    if t == COMMAND_LIST_DEVICES then ListStep(b, st)
    else if t == COMMAND_GET_DEVTYPE then DevTypeStep(b, st)
    else if t == COMMAND_GET_SDHCI_REGISTERS then RegistersStep(b, st)
    else if t == COMMAND_GET_USB_DATA then UsbStep(h, b, st)
    else if t == COMMAND_GET_FIREWIRE_DATA then FireWireStep(h, b, st)
    else if t == COMMAND_GET_PCMCIA_DATA then PcmciaStep(h, b, st)
    else AmIRootStep(h, b, st)
  }

  function TransferStep(h: Host, b: Backend, st: ServerState, t: Byte, p: seq<Byte>): (ServerState, Reply)
    requires IsTransfer(t) && TransferOk(t, p)
  {
    if t == COMMAND_SCSI then ScsiStep(b, st, p)
    else if t == COMMAND_ATA_CHS then Ata28Step(b, st, p, false)
    else if t == COMMAND_ATA_LBA_28 then Ata28Step(b, st, p, true)
    else if t == COMMAND_ATA_LBA_48 then Ata48Step(h, b, st, p)
    else if t == COMMAND_SDHCI then SdhciStep(b, st, p)
    else if t == MULTI_COMMAND_SDHCI then MultiStep(b, st, p)
    else OsReadStep(b, st, p)
  }

  function LifeCycleStep(h: Host, b: Backend, st: ServerState, t: Byte, p: seq<Byte>): Outcome
    requires IsLifeCycle(t) && (t == COMMAND_OPEN_DEVICE ==> OpenOk(p))
  {
    if t == COMMAND_OPEN_DEVICE then One(OpenStep(h, b, st, p))
    else if t == COMMAND_REOPEN then One(ReOpenStep(b, st))
    else Outcome(st.(os := Closed(b.kernel, st.os, st.ctx), ctx := None), [])
  }

  /** What is answered with a NOP and skipped: a late hello, packets only a server sends, unknown types. */
  function Refusal(st: ServerState, t: Byte): Reply
  {
    if t == HELLO then Nop(REASON_OOO, OOO_HELLO, st.nopError)
    else if IsKnownResponse(t) then Nop(REASON_OOO, OOO_RESPONSE, st.nopError)
    else Nop(REASON_NOT_RECOGNIZED, NotRecognized(t), st.nopError)
  }

  /** One frame of the command loop. */
  function Step(h: Host, b: Backend, st: ServerState, f: Frame): Outcome
    requires FrameOk(f)
  {
    var p, t := f.Encode(), f.ptype;
    if f.version != PACKET_VERSION then Outcome(st, [])
    else if IsQuery(t) then One(QueryStep(h, b, st, t))
    else if IsTransfer(t) then One(TransferStep(h, b, st, t, p))
    else if IsLifeCycle(t) then LifeCycleStep(h, b, st, t, p)
    else One((st, Refusal(st, t)))
  }

  predicate FramesOk(fs: seq<Frame>)
  {
    forall i :: 0 <= i < |fs| ==> FrameOk(fs[i])
  }

  /** A run of frames after the hello: the simple server. */
  function Run(h: Host, b: Backend, st: ServerState, fs: seq<Frame>): (o: Outcome)
    requires FramesOk(fs)
  {
    if fs == [] then Outcome(st, [])
    else
      var before := Run(h, b, st, fs[..|fs| - 1]);
      var last := Step(h, b, before.state, fs[|fs| - 1]);
      Outcome(last.state, before.replies + last.replies)
  }

  predicate IsHello(f: Frame)
  {
    f.version == PACKET_VERSION && f.ptype == HELLO
  }

  predicate IsScsi(f: Frame)
  {
    f.version == PACKET_VERSION && f.ptype == COMMAND_SCSI
  }

  /**
   * Every SCSI packet of a run meets an open device. Without one linux/scsi.c:40-42 returns before it sets the sense
   * pointer that worker.c:518 and 540 then read and free, so a run is the server's only while this holds.
   */
  predicate ScsiHasDevice(h: Host, b: Backend, st: ServerState, fs: seq<Frame>)
    requires FramesOk(fs)
  {
    forall k :: 0 <= k < |fs| && IsScsi(fs[k]) ==> Run(h, b, st, fs[..k]).state.ctx.Some?
  }

  /** One client: nothing happens unless its first packet is a hello. */
  function Session(h: Host, b: Backend, st: ServerState, fs: seq<Frame>): (o: Outcome)
    requires FramesOk(fs)
  {
    if fs == [] || !IsHello(fs[0]) then Outcome(st, []) else Run(h, b, st, fs[1..])
  }

  /** The commands of a client's packets, if they are heard at all. */
  function Heard(fs: seq<Frame>): (r: seq<Frame>)
    requires FramesOk(fs)
    ensures FramesOk(r)
  {
    if fs == [] || !IsHello(fs[0]) then [] else fs[1..]
  }
}
