/** linux/ata.c: ATA PASS-THROUGH (16) command blocks and the ATA Status Return sense descriptor. */
module Ata {
  import opened Bytes
  import opened Devices
  import opened Backend
  import Endian

  const PROTOCOL_NO_DATA := 3
  const PROTOCOL_PIO_IN := 4
  const PROTOCOL_PIO_OUT := 5
  const PROTOCOL_UDMA_IN := 10
  const PROTOCOL_UDMA_OUT := 11

  /** AtaRegistersChs and AtaRegistersLba28 have one layout: low, mid, high are sector, cylinder low and high. */
  datatype Registers28 = Registers28(feature: Byte, count: Byte, low: Byte, mid: Byte, high: Byte,
                                     deviceHead: Byte, command: Byte)

  datatype Registers48 = Registers48(feature: U16, count: U16, lowPrev: Byte, low: Byte, midPrev: Byte, mid: Byte,
                                     highPrev: Byte, high: Byte, deviceHead: Byte, command: Byte)

  datatype Errors28 = Errors28(status: Byte, error: Byte, count: Byte, low: Byte, mid: Byte, high: Byte,
                               deviceHead: Byte)

  datatype Errors48 = Errors48(status: Byte, error: Byte, count: U16, lowPrev: Byte, low: Byte, midPrev: Byte,
                               mid: Byte, highPrev: Byte, high: Byte, deviceHead: Byte)

  const NO_ERRORS28 := Errors28(0, 0, 0, 0, 0, 0, 0)
  const NO_ERRORS48 := Errors48(0, 0, 0, 0, 0, 0, 0, 0, 0, 0)

  /** How a command is to move data: the three transfer parameters of every request. */
  datatype Transfer = Transfer(protocol: Byte, register: Byte, blocks: Byte)

  function Direction(protocol: Byte): U32
  {
    if protocol in {0, 1, 3, 8, 9, 15} then DIRECTION_NONE
    else if protocol == PROTOCOL_PIO_IN || protocol == PROTOCOL_UDMA_IN then DIRECTION_IN
    else if protocol == PROTOCOL_PIO_OUT || protocol == PROTOCOL_UDMA_OUT then DIRECTION_OUT
    else DIRECTION_UNSPECIFIED
  }

  /** T_DIR, BYT_BLOK and T_LENGTH of CDB byte 2; the bits are disjoint, so or is addition. */
  function TransferBits(t: Transfer): (b: Byte)
    ensures b < 0x10
  {
    if t.register == 0 || t.protocol == PROTOCOL_NO_DATA then 0
    else (if t.protocol == PROTOCOL_PIO_IN || t.protocol == PROTOCOL_UDMA_IN then 8 else 0)
         + (if t.blocks != 0 then 4 else 0) + t.register % 4
  }

  function Cdb28(r: Registers28, t: Transfer, lba: bool): (cdb: seq<Byte>)
    ensures |cdb| == 16
  {
    [0x85, t.protocol % 16 * 2, TransferBits(t) + (if lba then 0x20 else 0),
     0, r.feature, 0, r.count, 0, r.low, 0, r.mid, 0, r.high, r.deviceHead, r.command, 0]
  }

  function RegisterBytes48(r: Registers48): (s: seq<Byte>)
    ensures |s| == 12
  {
    [r.feature / 0x100, r.feature % 0x100, r.count / 0x100, r.count % 0x100,
     r.lowPrev, r.low, r.midPrev, r.mid, r.highPrev, r.high, r.deviceHead, r.command]
  }

  function Cdb48(r: Registers48, t: Transfer): (cdb: seq<Byte>)
    ensures |cdb| == 16
  {
    [0x85, t.protocol % 16 * 2 + 1, TransferBits(t) + 0x20] + RegisterBytes48(r) + [0]
  }

  /** The command a SATL reads from ATA PASS-THROUGH (16): section 12.2 of SAT-2. */
  datatype PassThrough = PassThrough(protocol: nat, extend: bool, checkCondition: bool, toHost: bool, inBlocks: bool,
                                     lengthField: nat, features: nat, count: nat, lba: nat, device: nat, command: nat)

  function ReadPassThrough(cdb: seq<Byte>): PassThrough
    requires |cdb| == 16
  {
    var c := seq(16, i requires 0 <= i < 16 => cdb[i] as int);
    PassThrough(c[1] / 2 % 16, c[1] % 2 == 1, c[2] / 32 % 2 == 1, c[2] / 8 % 2 == 1, c[2] / 4 % 2 == 1, c[2] % 4,
                c[3] * 0x100 + c[4], c[5] * 0x100 + c[6],
                c[8] + c[10] * 0x100 + c[12] * 0x1_0000 + c[7] * 0x100_0000 + c[9] * 0x1_0000_0000
                + c[11] * 0x100_0000_0000,
                c[13], c[14])
  }

  /** The registers a host loads for a 48-bit LBA: low byte first, the previous contents hold bits 24 to 47. */
  function Load48(feature: U16, count: U16, lba: nat, deviceHead: Byte, command: Byte): Registers48
    requires lba < 0x1_0000_0000_0000
  {
    Registers48(feature, count,
                lba / 0x100_0000 % 0x100, lba % 0x100, lba / 0x1_0000_0000 % 0x100, lba / 0x100 % 0x100,
                lba / 0x100_0000_0000, lba / 0x1_0000 % 0x100, deviceHead, command)
  }

  lemma Digits48(lba: nat)
    requires lba < 0x1_0000_0000_0000
    ensures lba == lba % 0x100 + lba / 0x100 % 0x100 * 0x100 + lba / 0x1_0000 % 0x100 * 0x1_0000
                   + lba / 0x100_0000 % 0x100 * 0x100_0000 + lba / 0x1_0000_0000 % 0x100 * 0x1_0000_0000
                   + lba / 0x100_0000_0000 * 0x100_0000_0000
  {
    var h := lba / 0x100_0000;
    Endian.Quotients(lba);
    assert lba == lba % 0x100 + lba / 0x100 % 0x100 * 0x100 + lba / 0x1_0000 % 0x100 * 0x1_0000 + h * 0x100_0000;
    TopDigits48(lba, h);
  }

  lemma TopDigits48(lba: nat, h: nat)
    requires h == lba / 0x100_0000
    ensures lba / 0x1_0000_0000 == h / 0x100 && lba / 0x100_0000_0000 == h / 0x1_0000
    ensures h == h % 0x100 + h / 0x100 % 0x100 * 0x100 + h / 0x1_0000 * 0x1_0000
  {
    Endian.Quotients(h);
  }

  /** The three fields of byte 2 that say how data moves, in terms of the client's three parameters. */
  predicate Moves(p: PassThrough, t: Transfer)
  {
    && p.lengthField == (if t.register == 0 || t.protocol == 3 then 0 else t.register as int % 4)
    && (p.inBlocks <==> t.register != 0 && t.protocol != 3 && t.blocks != 0)
    && (p.toHost <==> t.register != 0 && t.protocol in {4, 10})
  }

  /** Byte 2 taken apart, with and without CK_COND. */
  lemma ByteTwo(t: Transfer, check: bool)
    ensures var b := TransferBits(t) as int + if check then 32 else 0;
            && (b / 32 % 2 == 1 <==> check)
            && b % 4 == (if t.register == 0 || t.protocol == 3 then 0 else t.register as int % 4)
            && (b / 4 % 2 == 1 <==> t.register != 0 && t.protocol != 3 && t.blocks != 0)
            && (b / 8 % 2 == 1 <==> t.register != 0 && t.protocol in {4, 10})
  {
    var low := t.register as int % 4;
    if t.register != 0 && t.protocol != 3 {
      assert TransferBits(t) as int
             == (if t.protocol in {4, 10} then 8 else 0) + (if t.blocks != 0 then 4 else 0) + low;
    }
  }

  lemma Cdb48Registers(r: Registers48, t: Transfer)
    ensures Cdb48(r, t)[0] == 0x85 && Cdb48(r, t)[15] == 0
    ensures var p := ReadPassThrough(Cdb48(r, t));
            && p.lba == r.low as int + r.mid as int * 0x100 + r.high as int * 0x1_0000 + r.lowPrev as int * 0x100_0000
                        + r.midPrev as int * 0x1_0000_0000 + r.highPrev as int * 0x100_0000_0000
            && p.features == r.feature && p.count == r.count && p.device == r.deviceHead && p.command == r.command
            && p.extend && p.checkCondition && p.protocol == t.protocol as int % 16 && Moves(p, t)
  {
    hide TransferBits;
    var c := Cdb48(r, t);
    ByteTwo(t, true);
    assert c[1] == t.protocol % 16 * 2 + 1 && c[2] == TransferBits(t) + 0x20;
    assert forall i :: 0 <= i < 12 ==> c[3 + i] == RegisterBytes48(r)[i];
  }

  /**
   * Every LBA48 request reaches the device unchanged: the CDB reads back, per SAT-2, as the loaded LBA,
   * feature, count, device and command, with EXTEND and CK_COND set and the client's protocol.
   */
  lemma Cdb48Carries(feature: U16, count: U16, lba: nat, deviceHead: Byte, command: Byte, t: Transfer)
    requires lba < 0x1_0000_0000_0000
    ensures var p := ReadPassThrough(Cdb48(Load48(feature, count, lba, deviceHead, command), t));
            && p.lba == lba && p.features == feature && p.count == count
            && p.device == deviceHead && p.command == command
            && p.extend && p.checkCondition && p.protocol == t.protocol as int % 16 && Moves(p, t)
  {
    hide Cdb48, ReadPassThrough, TransferBits, Moves;
    Cdb48Registers(Load48(feature, count, lba, deviceHead, command), t);
    Digits48(lba);
  }

  /** The direction handed to the SCSI layer, and what linux/scsi.c makes of it, by the client's protocol. */
  lemma DirectionByProtocol(protocol: Byte)
    ensures SgDirectionOf(Direction(protocol))
            == if protocol in {4, 10} then FromDevice
               else if protocol in {5, 11} then ToDevice
               else if protocol in {0, 1, 3, 8, 9, 15} then NoTransfer
               else ToFromDevice
  {
  }

  /** The kernel is told to read from the device exactly when T_DIR says so, if a transfer register is named. */
  lemma DirectionMatchesCdb(r: Registers48, t: Transfer)
    ensures ReadPassThrough(Cdb48(r, t)).toHost
            <==> t.register != 0 && SgDirectionOf(Direction(t.protocol)) == FromDevice
  {
    hide Cdb48, ReadPassThrough;
    Cdb48Registers(r, t);
    DirectionByProtocol(t.protocol);
  }

  function ZeroExtend(r: Registers28): Registers48
  {
    Registers48(r.feature, r.count, 0, r.low, 0, r.mid, 0, r.high, r.deviceHead, r.command)
  }

  /** An LBA28 command is the LBA48 command of its zero-extended registers with EXTEND (bit 0 of byte 1) clear. */
  lemma Cdb28IsUnextended48(r: Registers28, t: Transfer)
    ensures Cdb28(r, t, true)[1] % 2 == 0
    ensures Cdb48(ZeroExtend(r), t) == Cdb28(r, t, true)[1 := Cdb28(r, t, true)[1] + 1]
    ensures Cdb28(r, t, false) == Cdb28(r, t, true)[2 := TransferBits(t)]
  {
  }

  /** The registers a host loads for a 28-bit LBA: its top four bits go into the low half of the device register. */
  function Load28(feature: Byte, count: Byte, lba: nat, device: Byte, command: Byte): Registers28
    requires lba < 0x1000_0000 && device % 0x10 == 0
  {
    Registers28(feature, count, lba % 0x100, lba / 0x100 % 0x100, lba / 0x1_0000 % 0x100,
                device + lba / 0x100_0000, command)
  }

  /** CHS and LBA28 commands reach the device register by register; CK_COND is set for LBA28 only. */
  lemma Cdb28Registers(r: Registers28, t: Transfer, lba: bool)
    ensures Cdb28(r, t, lba)[0] == 0x85 && Cdb28(r, t, lba)[15] == 0
    ensures var p := ReadPassThrough(Cdb28(r, t, lba));
            && p.lba == r.low as int + r.mid as int * 0x100 + r.high as int * 0x1_0000
            && p.features == r.feature && p.count == r.count && p.device == r.deviceHead && p.command == r.command
            && !p.extend && p.checkCondition == lba && p.protocol == t.protocol as int % 16 && Moves(p, t)
  {
    hide TransferBits;
    ByteTwo(t, lba);
  }

  /** Every 28-bit LBA reaches the device: 24 bits in the LBA field, four in the device register. */
  lemma Cdb28Carries(feature: Byte, count: Byte, lba: nat, device: Byte, command: Byte, t: Transfer, mode: bool)
    requires lba < 0x1000_0000 && device % 0x10 == 0
    ensures var p := ReadPassThrough(Cdb28(Load28(feature, count, lba, device, command), t, mode));
            && p.lba + p.device % 0x10 * 0x100_0000 == lba && p.device / 0x10 == device / 0x10
            && p.features == feature && p.count == count && p.command == command
            && !p.extend && p.checkCondition == mode && p.protocol == t.protocol as int % 16 && Moves(p, t)
  {
    hide Cdb28, ReadPassThrough, TransferBits, Moves;
    var top := lba / 0x100_0000;
    Cdb28Registers(Load28(feature, count, lba, device, command), t, mode);
    Endian.Quotients(lba);
    assert (device + top) % 0x10 == top && (device + top) / 0x10 == device / 0x10;
  }

  // Sense data. `char` may be signed: only the 16-bit sum of linux/ata.c:264 can tell.

  function CharValue(signed: bool, b: Byte): int
  {
    if signed && b >= 0x80 then b as int - 0x100 else b as int
  }

  /** The guard of linux/ata.c:100, 177 and 260, negated. */
  predicate Accepted(s: seq<Byte>)
  {
    |s| >= 22 && (s[8] == 0x09 || s[9] == 0x0C)
  }

  function Sense28(s: seq<Byte>): Errors28
    requires |s| >= 22
  {
    Errors28(s[21], s[11], s[13], s[15], s[17], s[19], s[20])
  }

  function Sense48(signed: bool, s: seq<Byte>): Errors48
    requires |s| >= 22
  {
    Errors48(s[21], s[11], (CharValue(signed, s[12]) * 0x100 + CharValue(signed, s[13])) % 0x1_0000,
             s[14], s[15], s[16], s[17], s[18], s[19], s[20])
  }

  /** The ATA Status Return descriptor (09h, length 0Ch) a device sends back behind an 8-byte sense header. */
  function StatusReturn(header: seq<Byte>, extend: Byte, e: Errors48): (s: seq<Byte>)
    requires |header| == 8
    ensures |s| == 22
  {
    header + [0x09, 0x0C, extend, e.error, e.count / 0x100, e.count % 0x100, e.lowPrev, e.low, e.midPrev, e.mid,
              e.highPrev, e.high, e.deviceHead, e.status]
  }

  /**
   * With unsigned chars the decoder inverts the encoding; with signed ones exactly when the low count byte is below
   * 80h, and otherwise the count comes out 100h low.
   */
  lemma SenseRoundTrip(signed: bool, header: seq<Byte>, extend: Byte, e: Errors48)
    requires |header| == 8
    ensures var s := StatusReturn(header, extend, e);
            && Accepted(s)
            && (Sense48(signed, s) == e <==> !signed || e.count % 0x100 < 0x80)
            && (Sense48(signed, s) != e ==>
                  Sense48(signed, s) == e.(count := (e.count as int - 0x100) % 0x1_0000))
  {
    var s := StatusReturn(header, extend, e);
    assert s[12] as int * 0x100 + s[13] as int == e.count;
    assert s[13] == e.count % 0x100;
  }

  /** The error registers of a 28-bit command in a descriptor: the low halves, whatever the upper ones hold. */
  function Narrow(e: Errors48): Errors28
  {
    Errors28(e.status, e.error, e.count % 0x100, e.low, e.mid, e.high, e.deviceHead)
  }

  function Widen(e: Errors28): Errors48
  {
    Errors48(e.status, e.error, e.count, 0, e.low, 0, e.mid, 0, e.high, e.deviceHead)
  }

  /** The CHS and LBA28 decoders invert the encoding for every answer, signed chars or not. */
  lemma Sense28RoundTrip(header: seq<Byte>, extend: Byte, e: Errors48, e28: Errors28)
    requires |header| == 8
    ensures Accepted(StatusReturn(header, extend, e)) && Sense28(StatusReturn(header, extend, e)) == Narrow(e)
    ensures Sense28(StatusReturn(header, extend, Widen(e28))) == e28
  {
    assert StatusReturn(header, extend, e)[13] == e.count % 0x100;
  }

  function SenseFlag(error: Byte, status: Byte): U32
  {
    if error != 0 || status as bv8 & 0xA5 != 0 then 1 else 0
  }

  /** The sense flag is 1 exactly for an error, or a status with one of bits 7 (BSY), 5 (DF), 2 and 0 (ERR) set. */
  lemma SenseFlagBits(error: Byte, status: Byte)
    ensures var n := status as int;
            SenseFlag(error, status)
            == if error != 0 || n / 128 % 2 == 1 || n / 32 % 2 == 1 || n / 4 % 2 == 1 || n % 2 == 1 then 1 else 0
  {
    var b := status as bv8;
    assert (b & 0xA5 != 0) <==> b & 0x80 != 0 || b & 0x20 != 0 || b & 0x04 != 0 || b & 0x01 != 0;
  }

  ghost predicate IsStatusReturn(s: seq<Byte>)
  {
    exists header: seq<Byte>, extend: Byte, e: Errors48 :: |header| == 8 && s == StatusReturn(header, extend, e)
  }

  /** What the guard lets through is a status descriptor exactly when both identifying bytes are right, not just one. */
  lemma AcceptedIsDescriptor(s: seq<Byte>)
    requires Accepted(s)
    ensures IsStatusReturn(s[..22]) <==> s[8] == 0x09 && s[9] == 0x0C
  {
    if s[8] == 0x09 && s[9] == 0x0C {
      var e := Errors48(s[21], s[11], s[12] as int * 0x100 + s[13] as int, s[14], s[15], s[16], s[17], s[18], s[19],
                        s[20]);
      CountBytes(s[12], s[13]);
      assert s[..22] == StatusReturn(s[..8], s[10], e);
    }
    if IsStatusReturn(s[..22]) {
      var header: seq<Byte>, extend: Byte, e: Errors48 :| |header| == 8 && s[..22] == StatusReturn(header, extend, e);
      assert s[..22][8] == 0x09 && s[..22][9] == 0x0C;
    }
  }

  lemma CountBytes(hi: Byte, lo: Byte)
    ensures (hi as int * 0x100 + lo as int) / 0x100 == hi && (hi as int * 0x100 + lo as int) % 0x100 == lo
  {
  }

  /**
   * Fixed-format sense data (70h) of a refused command: ILLEGAL REQUEST, INVALID COMMAND OPERATION CODE (20h), with
   * 09h in the first byte of the command-specific information.
   */
  function FixedSense(): (s: seq<Byte>)
    ensures |s| == 22
  {
    [0x70, 0, 5, 0, 0, 0, 0, 0x0E, 0x09, 0, 0, 0, 0x20, 0, 0, 0, 0, 0, 0, 0, 0, 0]
  }

  lemma FixedSenseRead(signed: bool)
    ensures Accepted(FixedSense()) && !IsStatusReturn(FixedSense())
    ensures Sense48(signed, FixedSense()) == Errors48(0, 0, 0x2000, 0, 0, 0, 0, 0, 0, 0) && SenseFlag(0, 0) == 0
  {
    hide IsStatusReturn;
    var s := FixedSense();
    assert s[8] == 0x09 && s[9] == 0;
    AcceptedIsDescriptor(s);
    assert s[..22] == s;
  }

  /**
   * It is no descriptor, but the guard accepts it: the client is told of a count register 2000h nobody sent, and that
   * there was no sense although the SCSI layer reported some.
   */
  lemma FixedSenseMisread(b: Backend, signed: bool, os: Os, ctx: Ctx, r: Registers48, t: Transfer, buffer: seq<Byte>,
                          timeout: U32)
    ensures Accepted(FixedSense()) && !IsStatusReturn(FixedSense())
    ensures var s := b.Scsi(os.tick, Some(ctx), ScsiArgs(Cdb48(r, t), buffer, timeout, Direction(t.protocol)));
            var res := SendAta48Spec(b, signed, os, Some(ctx), r, t, buffer, timeout);
            s.senseData == FixedSense() && s.sense == 1 ==>
              res.errors == Errors48(0, 0, 0x2000, 0, 0, 0, 0, 0, 0, 0) && res.sense == 0
  {
    hide Cdb48, Direction, Backend.Scsi, IsStatusReturn, FixedSense;
    FixedSenseRead(signed);
  }

  datatype AtaResult<E> = AtaResult(os: Os, ret: int, errors: E, duration: U32, sense: U32, buffer: seq<Byte>)

  function SendAta28Spec(b: Backend, os: Os, ctx: Option<Ctx>, r: Registers28, lba: bool, t: Transfer,
                         buffer: seq<Byte>, timeout: U32): (res: AtaResult<Errors28>)
    ensures |res.buffer| <= |buffer| && res.os.SameTable(os)
  {
    if ctx.None? then AtaResult(os, -1, NO_ERRORS28, 0, 0, buffer)
    else
      var s := b.Scsi(os.tick, ctx, ScsiArgs(Cdb28(r, t, lba), buffer, timeout, Direction(t.protocol)));
      if !Accepted(s.senseData) then AtaResult(b.Tick(os), s.ret, NO_ERRORS28, s.duration, s.sense, s.buffer)
      else
        var e := Sense28(s.senseData);
        AtaResult(b.Tick(os), s.ret, e, s.duration, SenseFlag(e.error, e.status), s.buffer)
  }

  function SendAta48Spec(b: Backend, signed: bool, os: Os, ctx: Option<Ctx>, r: Registers48, t: Transfer,
                         buffer: seq<Byte>, timeout: U32): (res: AtaResult<Errors48>)
    ensures |res.buffer| <= |buffer| && res.os.SameTable(os)
  {
    if ctx.None? then AtaResult(os, -1, NO_ERRORS48, 0, 0, buffer)
    else
      var s := b.Scsi(os.tick, ctx, ScsiArgs(Cdb48(r, t), buffer, timeout, Direction(t.protocol)));
      if !Accepted(s.senseData) then AtaResult(b.Tick(os), s.ret, NO_ERRORS48, s.duration, s.sense, s.buffer)
      else
        var e := Sense48(signed, s.senseData);
        AtaResult(b.Tick(os), s.ret, e, s.duration, SenseFlag(e.error, e.status), s.buffer)
  }

  /** The lines the three functions share: a zeroed block, operation code, protocol and transfer bits. */
  method StartCdb(t: Transfer) returns (cdb: array<Byte>)
    ensures fresh(cdb) && cdb.Length == 16
    ensures cdb[..] == [0x85, t.protocol % 16 * 2, TransferBits(t)] + Zeros(13)
  {
    cdb := new Byte[16](_ => 0);
    cdb[0] := 0x85;
    cdb[1] := t.protocol % 16 * 2;
    if t.register != 0 && t.protocol != PROTOCOL_NO_DATA {
      cdb[2] := if t.protocol == PROTOCOL_PIO_IN || t.protocol == PROTOCOL_UDMA_IN then 0x08 else 0x00;
      if t.blocks != 0 {
        cdb[2] := cdb[2] + 0x04;
      }
      cdb[2] := cdb[2] + t.register % 4;
    }
    assert cdb[..] == [0x85, t.protocol % 16 * 2, TransferBits(t)] + Zeros(13);
  }

  lemma Cdb28Parts(s: seq<Byte>, r: Registers28, t: Transfer, lba: bool)
    requires |s| == 16 && s[0] == 0x85 && s[1] == t.protocol % 16 * 2
    requires s[2] == TransferBits(t) + if lba then 0x20 else 0
    requires s[3] == s[5] == s[7] == s[9] == s[11] == s[15] == 0 && s[4] == r.feature && s[6] == r.count
    requires s[8] == r.low && s[10] == r.mid && s[12] == r.high && s[13] == r.deviceHead && s[14] == r.command
    ensures s == Cdb28(r, t, lba)
  {
    hide TransferBits;
  }

  method FillCdb28(cdb: array<Byte>, r: Registers28)
    requires cdb.Length == 16
    modifies cdb
    ensures cdb[4] == r.feature && cdb[6] == r.count && cdb[8] == r.low && cdb[10] == r.mid && cdb[12] == r.high
    ensures cdb[13] == r.deviceHead && cdb[14] == r.command
    ensures forall i :: 0 <= i < 4 ==> cdb[i] == old(cdb[i])
    ensures cdb[5] == old(cdb[5]) && cdb[7] == old(cdb[7]) && cdb[9] == old(cdb[9]) && cdb[11] == old(cdb[11])
    ensures cdb[15] == old(cdb[15])
  {
    cdb[4], cdb[6], cdb[8], cdb[10], cdb[12] := r.feature, r.count, r.low, r.mid, r.high;
    cdb[13], cdb[14] := r.deviceHead, r.command;
  }

  /** linux/ata.c:62-86 (lba false) and 137-163 (lba true). */
  method MakeCdb28(r: Registers28, t: Transfer, lba: bool) returns (cdb: array<Byte>)
    ensures fresh(cdb) && cdb[..] == Cdb28(r, t, lba)
  {
    hide TransferBits;
    cdb := StartCdb(t);
    ghost var start := cdb[..];
    assert start[0] == 0x85 && start[1] == t.protocol % 16 * 2 && start[2] == TransferBits(t);
    assert forall i :: 3 <= i < 16 ==> start[i] == 0;
    if lba {
      cdb[2] := cdb[2] + 0x20;
    }
    FillCdb28(cdb, r);
    hide Cdb28;
    Cdb28Parts(cdb[..], r, t, lba);
  }

  /** linux/ata.c:41-114 (lba false) and 116-191 (lba true). */
  method SendAta28(b: Backend, os: Os, ctx: DeviceContext?, r: Registers28, lba: bool, t: Transfer,
                   buffer: seq<Byte>, timeout: U32)
    returns (res: AtaResult<Errors28>)
    ensures res == SendAta28Spec(b, os, ValueOf(ctx), r, lba, t, buffer, timeout)
  {
    if ctx == null {
      return AtaResult(os, -1, NO_ERRORS28, 0, 0, buffer);
    }
    var cdb := MakeCdb28(r, t, lba);
    var s := b.Scsi(os.tick, ValueOf(ctx), ScsiArgs(cdb[..], buffer, timeout, Direction(t.protocol)));
    res := AtaResult(b.Tick(os), s.ret, NO_ERRORS28, s.duration, s.sense, s.buffer);
    if |s.senseData| < 22 || (s.senseData[8] != 0x09 && s.senseData[9] != 0x0C) {
      return;
    }
    var e := Sense28(s.senseData);
    res := res.(errors := e, sense := SenseFlag(e.error, e.status));
  }

  /** linux/ata.c:235-246: the register bytes, every other one the previous contents. */
  method FillCdb48(cdb: array<Byte>, r: Registers48)
    requires cdb.Length == 16
    modifies cdb
    ensures cdb[3..15] == RegisterBytes48(r)
    ensures cdb[0] == old(cdb[0]) && cdb[1] == old(cdb[1]) && cdb[2] == old(cdb[2]) && cdb[15] == old(cdb[15])
  {
    cdb[3], cdb[4], cdb[5], cdb[6] := r.feature / 0x100, r.feature % 0x100, r.count / 0x100, r.count % 0x100;
    cdb[7], cdb[8], cdb[9], cdb[10] := r.lowPrev, r.low, r.midPrev, r.mid;
    cdb[11], cdb[12], cdb[13], cdb[14] := r.highPrev, r.high, r.deviceHead, r.command;
  }

  /** linux/ata.c:214-246. */
  method MakeCdb48(r: Registers48, t: Transfer) returns (cdb: array<Byte>)
    ensures fresh(cdb) && cdb[..] == Cdb48(r, t)
  {
    hide TransferBits, RegisterBytes48, Cdb48;
    cdb := StartCdb(t);
    ghost var start := cdb[..];
    cdb[1] := cdb[1] + 0x01;
    cdb[2] := cdb[2] + 0x20;
    FillCdb48(cdb, r);
    assert start[0] == 0x85 && start[1] == t.protocol % 16 * 2 && start[2] == TransferBits(t) && start[15] == 0;
    Cdb48Parts(cdb[..], r, t);
  }

  lemma Cdb48Parts(s: seq<Byte>, r: Registers48, t: Transfer)
    requires |s| == 16 && s[0] == 0x85 && s[1] == t.protocol % 16 * 2 + 1 && s[2] == TransferBits(t) + 0x20
    requires s[3..15] == RegisterBytes48(r) && s[15] == 0
    ensures s == Cdb48(r, t)
  {
    hide TransferBits;
    assert s == [s[0], s[1], s[2]] + s[3..15] + [s[15]];
  }

  /** linux/ata.c:193-277. */
  method SendAta48(b: Backend, signed: bool, os: Os, ctx: DeviceContext?, r: Registers48, t: Transfer,
                   buffer: seq<Byte>, timeout: U32)
    returns (res: AtaResult<Errors48>)
    ensures res == SendAta48Spec(b, signed, os, ValueOf(ctx), r, t, buffer, timeout)
  {
    if ctx == null {
      return AtaResult(os, -1, NO_ERRORS48, 0, 0, buffer);
    }
    var cdb := MakeCdb48(r, t);
    var s := b.Scsi(os.tick, ValueOf(ctx), ScsiArgs(cdb[..], buffer, timeout, Direction(t.protocol)));
    res := AtaResult(b.Tick(os), s.ret, NO_ERRORS48, s.duration, s.sense, s.buffer);
    if |s.senseData| < 22 || (s.senseData[8] != 0x09 && s.senseData[9] != 0x0C) {
      return;
    }
    var e := Sense48(signed, s.senseData);
    res := res.(errors := e, sense := SenseFlag(e.error, e.status));
  }
}
