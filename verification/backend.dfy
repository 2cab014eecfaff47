/** The platform calls worker.c makes, as a contract: functions of the tick that set every out-parameter. */
module Backend {
  import opened Bytes
  import opened Devices

  /** The block linux/scsi.c allocates for sense data. */
  const SENSE_SIZE := 32

  type DeviceInfo = s: seq<Byte> | |s| == 2052 witness seq(2052, _ => 0)
  type DeviceList = s: seq<DeviceInfo> | |s| < 0x1_0000 witness []
  type SenseData = s: seq<Byte> | |s| <= SENSE_SIZE witness []
  type Text = s: seq<Byte> | |s| == 256 witness seq(256, _ => 0)
  type Blob = s: seq<Byte> | |s| == 65536 witness seq(65536, _ => 0)

  datatype ScsiArgs = ScsiArgs(cdb: seq<Byte>, buffer: seq<Byte>, timeout: U32, direction: U32)

  datatype SgDirection = FromDevice | ToDevice | ToFromDevice | NoTransfer

  /** The sg_io_hdr_t of linux/scsi.c, with the command bytes it points to: as many as cmd_len says. */
  datatype SgIo = SgIo(cmdLen: Byte, command: seq<Byte>, direction: SgDirection, buffer: seq<Byte>, timeout: U32)

  const DIRECTION_UNSPECIFIED := 0xFFFF_FFFF
  const DIRECTION_NONE := 0
  const DIRECTION_OUT := 1
  const DIRECTION_IN := 2
  const DIRECTION_INOUT := 3

  function SgDirectionOf(direction: U32): SgDirection
  {
    if direction == DIRECTION_IN then FromDevice
    else if direction == DIRECTION_OUT then ToDevice
    else if direction == DIRECTION_INOUT || direction == DIRECTION_UNSPECIFIED then ToFromDevice
    else NoTransfer
  }

  /** linux/scsi.c:52-70; cmd_len is the length cut to a char. */
  function SgRequest(a: ScsiArgs): SgIo
  {
    var cmdLen: nat := |a.cdb| % 0x100;
    SgIo(cmdLen, a.cdb[..cmdLen], SgDirectionOf(a.direction), a.buffer, a.timeout)
  }

  /** The device is given the client's command if and only if it is shorter than 256 bytes. */
  lemma WholeCommand(a: ScsiArgs)
    ensures SgRequest(a).cmdLen == |a.cdb| <==> |a.cdb| < 0x100
    ensures SgRequest(a).command == a.cdb <==> |a.cdb| < 0x100
  {
    if |a.cdb| >= 0x100 {
      assert |SgRequest(a).command| < 0x100;
    }
  }

  datatype ScsiResult = ScsiResult(ret: int, senseData: SenseData, buffer: seq<Byte>, duration: U32, sense: U32)

  datatype Words4 = Words4(w0: U32, w1: U32, w2: U32, w3: U32)

  datatype SdhciCommand = SdhciCommand(command: Byte, write: Byte, application: Byte, flags: U32, argument: U32,
                                       blockSize: U32, blocks: U32, bufLen: U32, timeout: U32)

  datatype SdhciResult = SdhciResult(ret: int, response: Words4, buffer: seq<Byte>, duration: U32, sense: U32)

  /** linux/mmc/ioctl.h: struct mmc_ioc_cmd; dataPtr is an offset into the request packet. */
  datatype IocCmd = IocCmd(writeFlag: Byte, isAcmd: Byte, opcode: Byte, arg: U32, response: Words4, flags: U32,
                           blksz: U32, blocks: U32, dataPtr: nat)

  /** MMC_IOC_MULTI_CMD: 0 or the errno of a failure, the response words per entry, the data area afterwards. */
  datatype IoctlResult = IoctlResult(error: int, responses: nat -> Words4, area: seq<Byte>)

  datatype Registers = Registers(isSdhci: int, csd: seq<Byte>, cid: seq<Byte>, ocr: seq<Byte>, scr: seq<Byte>)

  datatype UsbData = UsbData(isUsb: Byte, descLen: U16, descriptors: Blob, idVendor: U16, idProduct: U16,
                             manufacturer: Text, product: Text, serial: Text)

  datatype FireWireData = FireWireData(isFireWire: Byte, idModel: U32, idVendor: U32, guid: U64,
                                       vendor: Text, model: Text)

  /** `streams` is how many directories and files the call opens: linux/pcmcia.c closes none of them. */
  datatype PcmciaData = PcmciaData(isPcmcia: Byte, cisLen: U16, cis: Blob, streams: nat)

  datatype Backend = Backend(
    kernel: Kernel,
    listDevices: nat -> DeviceList,
    deviceType: (nat, Option<Ctx>) -> int,
    sgIo: (nat, Option<Ctx>, SgIo) -> ScsiResult,
    registers: (nat, Option<Ctx>) -> Registers,
    usb: (nat, Option<Ctx>) -> UsbData,
    fireWire: (nat, Option<Ctx>) -> FireWireData,
    pcmcia: (nat, Option<Ctx>) -> PcmciaData,
    sdhci: (nat, Option<Ctx>, SdhciCommand, seq<Byte>) -> SdhciResult,
    multiIoctl: (nat, Ctx, seq<IocCmd>, seq<Byte>) -> IoctlResult,
    amIRoot: nat -> Byte,
    leftover: (nat, nat) -> seq<Byte>)
  {
    /** The SG_IO ioctl. The transfer buffer never grows: the caller allocated it. */
    function SgIoctl(tick: nat, ctx: Option<Ctx>, io: SgIo): (r: ScsiResult)
      ensures |r.buffer| <= |io.buffer|
    {
      var r := sgIo(tick, ctx, io);
      r.(buffer := r.buffer[..Min(|r.buffer|, |io.buffer|)])
    }

    /** What the kernel gives back, unless it made the buffer longer than it was. */
    lemma SgGiven(tick: nat, ctx: Option<Ctx>, io: SgIo)
      ensures |sgIo(tick, ctx, io).buffer| <= |io.buffer| ==> SgIoctl(tick, ctx, io) == sgIo(tick, ctx, io)
    {
      var r := sgIo(tick, ctx, io);
      assert r.buffer[..|r.buffer|] == r.buffer;
    }

    /** SendScsiCommand with a device. */
    function Scsi(tick: nat, ctx: Option<Ctx>, args: ScsiArgs): (r: ScsiResult)
      ensures |r.buffer| <= |args.buffer|
    {
      SgIoctl(tick, ctx, SgRequest(args))
    }

    function Sdhci(tick: nat, ctx: Option<Ctx>, cmd: SdhciCommand, buffer: seq<Byte>): (r: SdhciResult)
      ensures |r.buffer| == |buffer|
    {
      var r := sdhci(tick, ctx, cmd, buffer);
      if |r.buffer| == |buffer| then r else r.(buffer := buffer)
    }

    /** linux/pcmcia.c:42: without a device nothing is opened. */
    function Pcmcia(tick: nat, ctx: Option<Ctx>): (r: PcmciaData)
      ensures ctx.None? ==> r.streams == 0
    {
      var r := pcmcia(tick, ctx);
      if ctx.None? then r.(streams := 0) else r
    }

    /** The kernel after a backend call: one tick on, any errno. */
    function Tick(os: Os): (r: Os)
      ensures r.SameTable(os)
    {
      Called(kernel, os)
    }

    /** What a block of `size` bytes holds when malloc returns it. */
    function Leftover(tick: nat, size: nat): (s: seq<Byte>)
      ensures |s| == size
    {
      var s := leftover(tick, size);
      if |s| == size then s else Zeros(size)
    }

    /** The kernel stays inside the data area it was pointed at. */
    function MultiIoctl(tick: nat, ctx: Ctx, cmds: seq<IocCmd>, area: seq<Byte>): (r: IoctlResult)
      ensures |r.area| == |area|
    {
      var r := multiIoctl(tick, ctx, cmds, area);
      if |r.area| == |area| then r else r.(area := area)
    }
  }
}
