/**
 * What the server answers to which packet, over Step: type numbers, reason codes and errno values as they are on the
 * wire, and for each request what the backend is given and what of its result the client reads.
 */
module Answers {
  import opened Bytes
  import opened Layout
  import opened Endian
  import opened Packets
  import opened Devices
  import opened Backend
  import opened Ata
  import opened Sdhci
  import opened MultiSdhci
  import opened Server
  import opened RoundTrip
  import opened Guarantees
  import HostOrder
  import MultiCopy
  import ListDevices

  // Which request gets which answer.

  /** A NOP as a client reads it. */
  predicate SaysNop(r: Reply, reason: int, text: string, error: seq<Byte>)
  {
    && r.ptype == 255 && |r.body| == 264 && |text| <= 256
    && r.body[0] == reason && r.body[1] == r.body[2] == r.body[3] == 0
    && (forall i :: 0 <= i < |text| ==> r.body[4 + i] == text[i] as int % 0x100)
    && (forall i :: 4 + |text| <= i < 260 ==> r.body[i] == 0)
    && r.body[260..264] == error
  }

  lemma NopSays(reason: Byte, text: string, error: seq<Byte>)
    requires |error| == 4 && |text| <= 256
    ensures SaysNop(Nop(reason, text, error), reason, text, error)
  {
    hide Ascii, Padded;
    var body := NopBody(reason, text, error);
    var padded := Padded(Ascii(text), 256);
    PaddedText(Ascii(text), padded);
    BodyParts(body, reason, padded, error);
    AsciiAt(text);
    assert forall i :: 0 <= i < |text| ==> padded[i] == padded[0..|text|][i];
  }

  lemma BodyParts(body: seq<Byte>, reason: Byte, padded: seq<Byte>, error: seq<Byte>)
    requires |padded| == 256 && |error| == 4 && body == [reason, 0, 0, 0] + padded + error
    ensures |body| == 264 && body[0] == reason && body[1] == body[2] == body[3] == 0 && body[260..264] == error
    ensures forall i :: 4 <= i < 260 ==> body[i] == padded[i - 4]
  {
  }

  lemma AsciiAt(text: string)
    ensures forall i :: 0 <= i < |text| ==> Ascii(text)[i] == text[i] as int % 0x100
  {
  }

  lemma {:induction false} DecimalShort(n: nat)
    ensures n < 1000 ==> |Decimal(n)| <= 3
    ensures n < 100 ==> |Decimal(n)| <= 2
    ensures n < 10 ==> |Decimal(n)| <= 1
  {
    if n >= 10 {
      DecimalShort(n / 10);
    }
  }

  const LATE_HELLO := "Received hello packet out of order, skipping..."
  const STRAY_RESPONSE := "Received response packet?! You should certainly not do that..."

  function Unrecognized(t: Byte): string
  {
    "Received unrecognized packet with type " + PrintedType(t) + ", skipping..."
  }

  /**
   * One answer for each request type: t + 1 for those that ask the backend, a NOP for OPEN, REOPEN and whatever is
   * refused, none for CLOSE. A refusal changes nothing.
   */
  lemma AnswerByType(h: Host, b: Backend, st: ServerState, f: Frame)
    requires FrameOk(f) && f.version == 1 && |st.nopError| == 4
    ensures var o, t := Step(h, b, st, f), f.ptype as int;
            && (t in {5, 7, 9, 11, 13, 15, 17, 19, 21, 23, 26, 28, 31} ==>
                  |o.replies| == 1 && o.replies[0].ptype as int == t + 1)
            && (t == 2 ==>
                  |o.replies| == 1 && if b.listDevices(st.os.tick) != [] then o.replies[0].ptype == 3
                  else SaysNop(o.replies[0], 3, "Could not get device list, continuing...", st.nopError))
            && (t == 4 || t == 30 ==> |o.replies| == 1 && o.replies[0].ptype == 255)
            && (t == 25 ==> o.replies == [])
            && (t !in {2, 4, 5, 7, 9, 11, 13, 15, 17, 19, 21, 23, 25, 26, 28, 30, 31} ==>
                  && o.state == st && |o.replies| == 1
                  && if t == 1 then SaysNop(o.replies[0], 0, LATE_HELLO, st.nopError)
                     else if t in {3, 6, 8, 10, 12, 14, 16, 18, 20, 22, 24}
                     then SaysNop(o.replies[0], 0, STRAY_RESPONSE, st.nopError)
                     else SaysNop(o.replies[0], 2, Unrecognized(t), st.nopError))
  {
    hide LeBytes, RawFrame.Encode, U32At, U64At, ScsiBody, Ata28Body, Ata48Body, SdhciBody, MultiReplyHead, UsbBody,
         FireWireBody, PcmciaBody, RegistersBody, NopBody, MultiResultOf, ShippedArea, SendAta28Spec, SendAta48Spec,
         OsReadSpec, Opened, ReOpened, Closed, Request48, CString, SaysNop, TransferOk, OpenOk, PrintedType,
         ListDevices.ListBody;
    NopSays(3, "Could not get device list, continuing...", st.nopError);
    NopSays(0, LATE_HELLO, st.nopError);
    NopSays(0, STRAY_RESPONSE, st.nopError);
    RefusalShort(f.ptype);
    NopSays(2, Unrecognized(f.ptype), st.nopError);
  }

  lemma RefusalShort(t: Byte)
    ensures |Unrecognized(t)| <= 256
  {
    hide Decimal;
    DecimalShort(t);
    DecimalShort(0x100 - t as int);
  }

  /** Packets of another protocol version are passed over. */
  lemma ForeignVersion(h: Host, b: Backend, st: ServerState, f: Frame)
    requires FrameOk(f) && f.version != 1
    ensures Step(h, b, st, f).state == st && Step(h, b, st, f).replies == []
  {
    hide RawFrame.Encode;
  }

  /** Which packets are left for the next iteration, and whose bodies are looked at. */
  lemma PendingByType(f: Frame)
    ensures Skips(f.version, f.ptype)
            <==> f.version != 1 || f.ptype !in {2, 4, 5, 7, 9, 11, 13, 15, 17, 19, 21, 23, 26, 28, 30, 31}
    ensures ReadsBody(f) <==> f.version == 1 && f.ptype in {4, 5, 7, 9, 11, 13, 28, 31}
  {
  }

  /** A client is heard exactly when its first packet is a hello of version 1, and then from the second packet on. */
  lemma HeardByHello(h: Host, b: Backend, st: ServerState, fs: seq<Frame>)
    requires FramesOk(fs)
    ensures if fs != [] && fs[0].version == 1 && fs[0].ptype == 1
            then FramesOk(fs[1..]) && Session(h, b, st, fs) == Run(h, b, st, fs[1..])
            else Session(h, b, st, fs) == Outcome(st, [])
  {
    hide Run, FrameOk;
  }

  /** The bytes every packet begins with: DICRPCKT. */
  lemma MagicBytes()
    ensures Magic() == [0x44, 0x49, 0x43, 0x52, 0x50, 0x43, 0x4B, 0x54]
  {
    assert LeBytes(REMOTE_ID, 4) == [0x44, 0x49, 0x43, 0x52];
    assert LeBytes(PACKET_ID, 4) == [0x50, 0x43, 0x4B, 0x54];
  }

  // OPEN and REOPEN.

  lemma {:induction false} PathRead(path: seq<Byte>, rest: seq<Byte>)
    requires 0 !in path
    ensures CString(path + [0] + rest) == path && 0 in path + [0] + rest
  {
    var s := path + [0] + rest;
    assert s[|path|] == 0;
    if path != [] {
      PathRead(path[1..], rest);
      assert s[0] == path[0] && s[0] in path && s[1..] == path[1..] + [0] + rest;
    }
  }

  lemma StepIsOpen(h: Host, b: Backend, st: ServerState, f: Frame)
    requires FrameOk(f) && f.version == 1 && f.ptype == 4
    ensures OpenOk(f.Encode()) && Step(h, b, st, f) == One(OpenStep(h, b, st, f.Encode()))
  {
    hide RawFrame.Encode, OpenStep, OpenOk;
  }

  lemma OpenFrameOk(f: Frame, path: seq<Byte>, rest: seq<Byte>)
    requires f.version == 1 && f.ptype == 4 && f.payload == path + [0] + rest && 0 !in path
    ensures FrameOk(f) && CString(f.Encode()[16..]) == path
  {
    hide RawFrame.Header, CString;
    PathRead(path, rest);
    assert f.Encode()[16..] == f.payload;
  }

  /**
   * What OPEN of a path comes to: 4 when the open for writing succeeded or, that being forbidden (EACCES 13, EROFS 30),
   * the open for reading, and then a device; else 5, no device, and the errno of the last open tried as the host
   * stores it.
   */
  predicate OpenOutcome(order: ByteOrder, k: Kernel, os: Os, path: Path, o: Outcome)
  {
    var t := os.tick + 1;
    var resolved := match k.realPath(os.tick, path) case Resolved(p) => p case Unresolved(_) => path;
    var e, e2 := k.openError(t, resolved, true), k.openError(t + 1, resolved, false);
    var opens := e == 0 || (e in {13, 30} && e2 == 0);
    && |o.replies| == 1 && SaysNop(o.replies[0], if opens then 4 else 5, "", o.state.nopError)
    && if opens then
         && o.state.ctx.Some? && o.state.ctx.value.path == resolved[..Min(|resolved|, 4096)]
         && o.state.ctx.value.fd > 2 && o.state.ctx.value.fd !in os.Table()
         && o.state.os.fds == os.fds + {o.state.ctx.value.fd}
       else
         && o.state.ctx.None? && o.state.os.fds == os.fds
         && o.state.nopError == Image(order, if e in {13, 30} then e2 else e, 4)
  }

  /** The answer to an OPEN packet, type 4, says whether the device opened. */
  lemma OpenAnswer(h: Host, b: Backend, st: ServerState, f: Frame, path: seq<Byte>, rest: seq<Byte>)
    requires f.version == 1 && f.ptype == 4 && f.payload == path + [0] + rest && 0 !in path
    ensures FrameOk(f) && OpenOutcome(h.order, b.kernel, st.os, path, Step(h, b, st, f))
  {
    hide CString, Opened, OpenPath, Image, SaysNop, RawFrame.Encode, Step, FrameOk, OpenOk, OpenStep;
    OpenFrameOk(f, path, rest);
    StepIsOpen(h, b, st, f);
    OpenStepSays(h, b, st, f.Encode());
    OpensWhen(b.kernel, st.os, path);
    OpenResult(b.kernel, st.os, path);
    PathResolved(b.kernel, st.os, path);
  }

  lemma OpenStepSays(h: Host, b: Backend, st: ServerState, p: seq<Byte>)
    requires OpenOk(p)
    ensures var r, step := Opened(b.kernel, st.os, CString(p[16..])), OpenStep(h, b, st, p);
            && step.0 == ServerState(r.1, r.0, Image(h.order, r.0.errno, 4))
            && SaysNop(step.1, if r.1.Some? then 4 else 5, "", step.0.nopError)
  {
    hide CString, Opened, Image, NopBody, SaysNop, OpenOk;
    var error := OpenStep(h, b, st, p).0.nopError;
    NopSays(4, "", error);
    NopSays(5, "", error);
  }

  lemma PathResolved(k: Kernel, os: Os, path: seq<Byte>)
    ensures OpenPath(k, os, path) == match k.realPath(os.tick, path) case Resolved(p) => p case Unresolved(_) => path
  {
  }

  /**
   * The answer to REOPEN: 6 exactly when there is a device, its close succeeded and then one of the two opens of its
   * path; else 5. error_no is 0, the errno of what failed, or all ones without a device.
   */
  lemma ReOpenAnswer(h: Host, b: Backend, st: ServerState, f: Frame)
    requires f.version == 1 && f.ptype == 30
    ensures FrameOk(f)
    ensures var k, t, o := b.kernel, st.os.tick, Step(h, b, st, f);
            && |o.replies| == 1 && |o.replies[0].body| == 264
            && if st.ctx.None? then
                 SaysNop(o.replies[0], 5, "", o.state.nopError) && U32At(o.replies[0].body, 260) == 0xFFFF_FFFF
                 && o.state.ctx == None
               else
                 var ctx := st.ctx.value;
                 var c := if ctx.fd in st.os.Table() then k.closeError(t, ctx.fd) else 9;
                 var e, e2 := k.openError(t + 1, ctx.path, true), k.openError(t + 2, ctx.path, false);
                 var error := if c != 0 then c else if e in {13, 30} then e2 else e;
                 && SaysNop(o.replies[0], if error == 0 then 6 else 5, "", o.state.nopError)
                 && U32At(o.replies[0].body, 260) == error
                 && o.state.ctx.Some? && o.state.ctx.value.path == ctx.path
                 && (error == 0 ==> o.state.ctx.value.fd in o.state.os.fds)
  {
    hide LeBytes, ReOpened, NopBody, SaysNop, RawFrame.Encode, U32At;
    if st.ctx.Some? {
      ReOpensWhen(b.kernel, st.os, st.ctx.value);
    } else {
      NoDevice(b.kernel, st.os);
    }
    var r := ReOpenStep(b, st);
    var ret := ReOpened(b.kernel, st.os, st.ctx).ret;
    ZeroWord();
    assert r.0.nopError == LeBytes(Bits32(ret), 4);
    NopSays(6, "", r.0.nopError);
    NopSays(5, "", r.0.nopError);
    ErrorRead(r.1, r.0.nopError, Bits32(ret));
  }

  lemma ZeroWord()
    ensures LeBytes(0, 4) == Zeros(4)
  {
    assert LeBytes(0, 4) == [0, 0, 0, 0];
  }

  lemma NoDevice(k: Kernel, os: Os)
    ensures ReOpened(k, os, None) == ReOpenResult(os, None, -1, 0)
  {
  }

  lemma ErrorRead(r: Reply, error: seq<Byte>, x: U32)
    requires |error| == 4 && error == LeBytes(x, 4)
    requires SaysNop(r, 4, "", error) || SaysNop(r, 5, "", error) || SaysNop(r, 6, "", error)
    ensures U32At(r.body, 260) == x
  {
    hide LeBytes, U32At;
    U32AtLe(r.body, 260, x);
  }

  /** Over a run: the answer to an OPEN says 4 exactly when a device is open behind it. */
  lemma OpenAnswerInRun(h: Host, b: Backend, st: ServerState, fs: seq<Frame>, k: nat, path: seq<Byte>, rest: seq<Byte>)
    requires FramesOk(fs) && |st.nopError| == 4 && k < |fs|
    requires fs[k].version == 1 && fs[k].ptype == 4 && fs[k].payload == path + [0] + rest && 0 !in path
    ensures var n, o := AnswerCount(fs[..k]), Run(h, b, st, fs);
            && n < |o.replies| && |o.replies[n].body| == 264 && o.replies[n].body[0] in {4, 5}
            && (o.replies[n].body[0] == 4 <==> Run(h, b, st, fs[..k + 1]).state.ctx.Some?)
  {
    hide Run, Step, FrameOk, RawFrame.Encode;
    RepliesPaired(h, b, st, fs);
    OpenAnswer(h, b, Run(h, b, st, fs[..k]).state, fs[k], path, rest);
    RunLast(h, b, st, fs[..k + 1]);
    assert fs[..k + 1][..k] == fs[..k];
    assert Answers(fs[k]);
  }

  // SCSI.

  /** The requests that move data, by number. */
  lemma StepIsTransfer(h: Host, b: Backend, st: ServerState, f: Frame)
    requires f.version == 1 && f.ptype in {5, 7, 9, 11, 13, 28, 31} && TransferOk(f.ptype, f.Encode())
    ensures FrameOk(f) && Step(h, b, st, f) == One(TransferStep(h, b, st, f.ptype, f.Encode()))
  {
    hide RawFrame.Encode, TransferStep, TransferOk;
  }

  /**
   * A SCSI packet, type 5, from wire to device and back: the kernel is handed the client's command with its length cut
   * to a char, data and timeout, and the direction its word names; the client reads in the reply what the kernel gave
   * back.
   */
  lemma ScsiAnswer(h: Host, b: Backend, st: ServerState, f: Frame, a: ScsiArgs)
    requires f.version == 1 && f.ptype == 5 && f.payload == ScsiPayload(a)
    requires 36 + 32 + |a.buffer| < INT32_LIMIT && st.ctx.Some?
    ensures FrameOk(f)
    ensures var io := SgIo(|a.cdb| % 256, a.cdb[..|a.cdb| % 256],
                           if a.direction == 2 then FromDevice else if a.direction == 1 then ToDevice
                           else if a.direction == 3 || a.direction == 0xFFFF_FFFF then ToFromDevice else NoTransfer,
                           a.buffer, a.timeout);
            var r, o := b.sgIo(st.os.tick, st.ctx, io), Step(h, b, st, f);
            && |o.replies| == 1 && o.replies[0].ptype == 6 && o.state.ctx == st.ctx
            && (|r.buffer| <= |a.buffer| ==>
                  ReadScsi(o.replies[0].body)
                  == Some(ScsiReading(r.senseData, r.buffer, r.duration, r.sense, Bits32(r.ret))))
  {
    hide LeBytes, RawFrame.Header, ScsiPayload, ScsiBody, ReadScsi, ScsiRequest, U32At, ScsiOk, Step, FrameOk;
    ScsiRequestRoundTrip(f.Header(), a);
    assert f.Encode() == EncodeScsi(f.Header(), a);
    StepIsTransfer(h, b, st, f);
    DirectionWord(a.direction);
    b.SgGiven(st.os.tick, st.ctx, SgRequest(a));
    ScsiReplyRoundTrip(b.Scsi(st.os.tick, st.ctx, a));
  }

  lemma DirectionWord(direction: U32)
    ensures SgDirectionOf(direction)
            == if direction == 2 then FromDevice else if direction == 1 then ToDevice
               else if direction == 3 || direction == 0xFFFF_FFFF then ToFromDevice else NoTransfer
  {
  }

  // ATA.

  /** The sense flag a client must see: an error, or BSY (7), DF (5), bit 2 or ERR (0) of the status. */
  predicate Raised(error: Byte, status: Byte)
  {
    var n := status as int;
    error != 0 || n / 128 % 2 == 1 || n / 32 % 2 == 1 || n / 4 % 2 == 1 || n % 2 == 1
  }

  /** linux/ata.c:100: what comes back is taken for a status descriptor. */
  predicate Taken22(s: seq<Byte>)
  {
    |s| >= 22 && (s[8] == 9 || s[9] == 12)
  }

  lemma FirstBytes(signed: bool, s: seq<Byte>)
    requires |s| >= 22
    ensures Sense48(signed, s) == Sense48(signed, s[..22]) && Sense28(s) == Sense28(s[..22])
    ensures Accepted(s) == Accepted(s[..22]) == Taken22(s)
  {
  }

  /** What the client of an LBA48 request reads, given what the kernel gave back. */
  predicate Reads48(signed: bool, got: Option<Ata48Reading>, r: ScsiResult)
  {
    && got.Some? && got.value.buffer == r.buffer && got.value.duration == r.duration
    && got.value.error == Bits32(r.ret)
    && if Taken22(r.senseData) then
         && got.value.errors == Sense48(signed, r.senseData)
         && got.value.sense == if Raised(got.value.errors.error, got.value.errors.status) then 1 else 0
       else
         got.value.errors == Errors48(0, 0, 0, 0, 0, 0, 0, 0, 0, 0) && got.value.sense == r.sense
  }

  /** With a status descriptor those are its registers, up to the count. */
  lemma Descriptor48(signed: bool, s: seq<Byte>, header: seq<Byte>, extend: Byte, e: Errors48)
    requires |s| >= 22 && |header| == 8 && s[..22] == StatusReturn(header, extend, e)
    ensures Taken22(s) && Sense48(signed, s).error == e.error && Sense48(signed, s).status == e.status
    ensures Sense48(signed, s) == e <==> !signed || e.count % 0x100 < 0x80
  {
    hide StatusReturn, Sense48, Accepted, Taken22;
    FirstBytes(signed, s);
    SenseParts(signed, header, extend, e);
  }

  /**
   * An LBA48 request, type 11, from wire to device and back, on any host: for every 48-bit LBA, count and command the
   * kernel is handed an ATA PASS-THROUGH (16) that reads, per SAT-2, as exactly those and as the transfer asked for,
   * and as the feature exactly on a little-endian machine or when its bytes are equal; with it the client's data and
   * timeout and the direction of the protocol. The client reads what Reads48 makes of the result.
   */
  lemma Ata48EndToEnd(h: Host, b: Backend, st: ServerState, f: Frame, feature: U16, count: U16, lba: nat,
                      deviceHead: Byte, command: Byte, t: Transfer, timeout: U32, data: seq<Byte>)
    returns (cdb: seq<Byte>)
    requires lba < 0x1_0000_0000_0000 && 43 + |data| < INT32_LIMIT && st.ctx.Some? && f.version == 1 && f.ptype == 11
    requires f.payload == Ata48Payload(Load48(feature, count, lba, deviceHead, command), t, timeout, data)
    ensures FrameOk(f) && |cdb| == 16 && cdb[0] == 0x85 && cdb[15] == 0
    ensures var pass := ReadPassThrough(cdb);
            && pass.lba == lba && pass.count == count && pass.command == command && pass.device == deviceHead
            && (pass.features == feature <==> h.order.Little? || feature / 0x100 == feature % 0x100)
            && pass.extend && pass.checkCondition && pass.protocol == t.protocol as int % 16 && Moves(pass, t)
    ensures var direction := if t.protocol in {4, 10} then FromDevice else if t.protocol in {5, 11} then ToDevice
                             else if t.protocol in {0, 1, 3, 8, 9, 15} then NoTransfer else ToFromDevice;
            var r, o := b.sgIo(st.os.tick, st.ctx, SgIo(16, cdb, direction, data, timeout)), Step(h, b, st, f);
            && |o.replies| == 1 && o.replies[0].ptype == 12 && o.state.ctx == st.ctx
            && (|r.buffer| <= |data| ==> Reads48(h.charSigned, ReadAta48(o.replies[0].body), r))
  {
    hide LeBytes, U32At, Ata48Payload, Request48, Load48, ReadPassThrough, Sense48, SenseFlag, Ata48Body, ReadAta48,
         Cdb48, TransferBits, HToLe16, RawFrame.Header, Step, FrameOk, Moves, Ata48Ok, Direction, SgDirectionOf,
         Raised;
    var r := Load48(feature, count, lba, deviceHead, command);
    var feature' := HToLe16(h.order, feature);
    var loaded := r.(feature := feature');
    assert f.Encode() == EncodeAta48(f.Header(), r, t, timeout, data);
    Ata48RequestParts(f.Header(), r, t, timeout, data);
    StepIsTransfer(h, b, st, f);
    LoadedFeature(feature, count, lba, deviceHead, command, feature');
    FeatureRead(h.order, f.Header(), r, t, timeout, data);
    SwapFixed(feature);
    SwapOrNot(h.order, feature);
    Cdb48Carries(feature', count, lba, deviceHead, command, t);
    Cdb48Registers(loaded, t);
    cdb := Cdb48(loaded, t);
    DirectionByProtocol(t.protocol);
    SixteenBytes(cdb, data, timeout, Direction(t.protocol));
    b.SgGiven(st.os.tick, st.ctx, SgRequest(ScsiArgs(cdb, data, timeout, Direction(t.protocol))));
    var res := SendAta48Spec(b, h.charSigned, st.os, st.ctx, loaded, t, data, timeout);
    RaisedFlag(res.errors.error, res.errors.status);
    Ata48ReplyRoundTrip(res);
  }

  lemma SwapOrNot(order: ByteOrder, x: U16)
    ensures HToLe16(order, x) == x <==> order.Little? || BSwap16(x) == x
  {
  }

  lemma RaisedFlag(error: Byte, status: Byte)
    ensures SenseFlag(error, status) == if Raised(error, status) then 1 else 0
  {
    SenseFlagBits(error, status);
  }

  lemma SixteenBytes(cdb: seq<Byte>, data: seq<Byte>, timeout: U32, direction: U32)
    requires |cdb| == 16
    ensures SgRequest(ScsiArgs(cdb, data, timeout, direction))
            == SgIo(16, cdb, SgDirectionOf(direction), data, timeout)
  {
    assert cdb[..16] == cdb;
  }

  /** Without a device: -1, no registers, no sense, and the client's own data back. */
  lemma Ata48NoDevice(h: Host, b: Backend, st: ServerState, f: Frame, r: Registers48, t: Transfer, timeout: U32,
                      data: seq<Byte>)
    requires 43 + |data| < INT32_LIMIT && st.ctx.None? && f.version == 1 && f.ptype == 11
    requires f.payload == Ata48Payload(r, t, timeout, data)
    ensures FrameOk(f)
    ensures var o := Step(h, b, st, f);
            && o.state == st && |o.replies| == 1 && o.replies[0].ptype == 12
            && ReadAta48(o.replies[0].body)
               == Some(Ata48Reading(Errors48(0, 0, 0, 0, 0, 0, 0, 0, 0, 0), data, 0, 0, 0xFFFF_FFFF))
  {
    hide LeBytes, U32At, Ata48Payload, Request48, Ata48Body, ReadAta48, RawFrame.Header, Step, FrameOk, Ata48Ok;
    assert f.Encode() == EncodeAta48(f.Header(), r, t, timeout, data);
    Ata48RequestParts(f.Header(), r, t, timeout, data);
    StepIsTransfer(h, b, st, f);
    Ata48ReplyRoundTrip(AtaResult(st.os, -1, NO_ERRORS48, 0, 0, data));
  }

  predicate Reads28(got: Option<Ata28Reading>, r: ScsiResult)
  {
    && got.Some? && got.value.buffer == r.buffer && got.value.duration == r.duration
    && got.value.error == Bits32(r.ret)
    && if Taken22(r.senseData) then
         && got.value.errors == Sense28(r.senseData)
         && got.value.sense == if Raised(got.value.errors.error, got.value.errors.status) then 1 else 0
       else
         got.value.errors == Errors28(0, 0, 0, 0, 0, 0, 0) && got.value.sense == r.sense
  }

  lemma Descriptor28(s: seq<Byte>, header: seq<Byte>, extend: Byte, e: Errors28)
    requires |s| >= 22 && |header| == 8 && s[..22] == StatusReturn(header, extend, Widen(e))
    ensures Taken22(s) && Sense28(s) == e
  {
    hide StatusReturn, Sense28, Accepted, Taken22, Widen;
    FirstBytes(true, s);
    Sense28RoundTrip(header, extend, Widen(e), e);
  }

  /**
   * The same for LBA28 (type 9) and CHS (type 7), where nothing depends on byte order or the signedness of char: every
   * 28-bit LBA arrives, CK_COND set for LBA28 only.
   */
  lemma Ata28EndToEnd(h: Host, b: Backend, st: ServerState, f: Frame, feature: Byte, count: Byte, lba: nat,
                      device: Byte, command: Byte, t: Transfer, timeout: U32, data: seq<Byte>)
    returns (cdb: seq<Byte>)
    requires lba < 0x1000_0000 && device % 0x10 == 0 && 39 + |data| < INT32_LIMIT && st.ctx.Some?
    requires f.version == 1 && f.ptype in {7, 9}
    requires f.payload == Ata28Payload(Load28(feature, count, lba, device, command), t, timeout, data)
    ensures FrameOk(f) && |cdb| == 16 && cdb[0] == 0x85 && cdb[15] == 0
    ensures var pass := ReadPassThrough(cdb);
            && pass.lba + pass.device % 0x10 * 0x100_0000 == lba && pass.device / 0x10 == device / 0x10
            && pass.features == feature && pass.count == count && pass.command == command
            && !pass.extend && pass.checkCondition == (f.ptype == 9) && pass.protocol == t.protocol as int % 16
            && Moves(pass, t)
    ensures var direction := if t.protocol in {4, 10} then FromDevice else if t.protocol in {5, 11} then ToDevice
                             else if t.protocol in {0, 1, 3, 8, 9, 15} then NoTransfer else ToFromDevice;
            var r, o := b.sgIo(st.os.tick, st.ctx, SgIo(16, cdb, direction, data, timeout)), Step(h, b, st, f);
            && |o.replies| == 1 && o.replies[0].ptype as int == f.ptype as int + 1 && o.state.ctx == st.ctx
            && (|r.buffer| <= |data| ==> Reads28(ReadAta28(o.replies[0].body), r))
  {
    hide LeBytes, U32At, Ata28Payload, Request28, Load28, ReadPassThrough, Sense28, SenseFlag, Ata28Body, ReadAta28,
         Cdb28, TransferBits, RawFrame.Header, Step, FrameOk, Moves, Ata28Ok, Direction, SgDirectionOf, Raised;
    var r, mode := Load28(feature, count, lba, device, command), f.ptype == 9;
    assert f.Encode() == EncodeAta28(f.Header(), r, t, timeout, data);
    Ata28RequestParts(f.Header(), r, t, timeout, data);
    StepIsTransfer(h, b, st, f);
    Cdb28Carries(feature, count, lba, device, command, t, mode);
    Cdb28Registers(r, t, mode);
    cdb := Cdb28(r, t, mode);
    DirectionByProtocol(t.protocol);
    SixteenBytes(cdb, data, timeout, Direction(t.protocol));
    b.SgGiven(st.os.tick, st.ctx, SgRequest(ScsiArgs(cdb, data, timeout, Direction(t.protocol))));
    var res := SendAta28Spec(b, st.os, st.ctx, r, mode, t, data, timeout);
    RaisedFlag(res.errors.error, res.errors.status);
    Ata28ReplyRoundTrip(res);
  }

  lemma Ata28NoDevice(h: Host, b: Backend, st: ServerState, f: Frame, r: Registers28, t: Transfer, timeout: U32,
                      data: seq<Byte>)
    requires 39 + |data| < INT32_LIMIT && st.ctx.None? && f.version == 1 && f.ptype in {7, 9}
    requires f.payload == Ata28Payload(r, t, timeout, data)
    ensures FrameOk(f)
    ensures var o := Step(h, b, st, f);
            && o.state == st && |o.replies| == 1 && o.replies[0].ptype as int == f.ptype as int + 1
            && ReadAta28(o.replies[0].body)
               == Some(Ata28Reading(Errors28(0, 0, 0, 0, 0, 0, 0), data, 0, 0, 0xFFFF_FFFF))
  {
    hide LeBytes, U32At, Ata28Payload, Request28, Ata28Body, ReadAta28, RawFrame.Header, Step, FrameOk, Ata28Ok;
    assert f.Encode() == EncodeAta28(f.Header(), r, t, timeout, data);
    Ata28RequestParts(f.Header(), r, t, timeout, data);
    StepIsTransfer(h, b, st, f);
    Ata28ReplyRoundTrip(AtaResult(st.os, -1, NO_ERRORS28, 0, 0, data));
  }

  // Single and multi-command SDHCI.

  lemma CommandRequest(f: Frame, c: SdhciCommand, data: seq<Byte>)
    requires f.payload == EncodeCommand(c) + data && |data| == c.bufLen && 48 + |data| < INT32_LIMIT
    ensures var p := f.Encode(); SdhciOk(p) && CommandAt(p, 16) == c && p[43..43 + |data|] == data
  {
    hide CommandAt, EncodeCommand, RawFrame.Header;
    var p := f.Encode();
    assert p[16..16 + COMMAND_SIZE] == EncodeCommand(c) && p[43..43 + |data|] == data;
    CommandAtEncoded(p, 16, c);
    LengthField(p, c);
  }

  lemma LengthField(p: seq<Byte>, c: SdhciCommand)
    requires |p| >= 43 && CommandAt(p, 16) == c
    ensures U32At(p, 35) == c.bufLen
  {
    hide U32At;
  }

  /** An SDHCI packet, type 13: the command and its data reach the backend, and what comes back the client. */
  lemma SdhciAnswer(h: Host, b: Backend, st: ServerState, f: Frame, c: SdhciCommand, data: seq<Byte>)
    requires f.version == 1 && f.ptype == 13 && f.payload == EncodeCommand(c) + data
    requires |data| == c.bufLen && 48 + |data| < INT32_LIMIT
    ensures FrameOk(f)
    ensures var r, o := b.sdhci(st.os.tick, st.ctx, c, data), Step(h, b, st, f);
            && |o.replies| == 1 && o.replies[0].ptype == 14 && o.state.ctx == st.ctx
            && |o.replies[0].body| == 32 + |data|
            && (|r.buffer| == |data| ==>
                  && SlotAt(o.replies[0].body, 0) == (c.bufLen, r.response, r.duration, r.sense, Bits32(r.ret))
                  && o.replies[0].body[32..] == r.buffer)
  {
    hide SdhciOk, CommandAt, EncodeCommand, RawFrame.Encode, Step, FrameOk, SdhciBody, SlotAt;
    CommandRequest(f, c, data);
    StepIsTransfer(h, b, st, f);
    SdhciReplyRoundTrip(c.bufLen, b.Sdhci(st.os.tick, st.ctx, c, data));
  }

  /** The ioctl entries of a multi-command request: entry i carries command i and points at its payload. */
  predicate Entries(ioc: seq<IocCmd>, cmds: seq<SdhciCommand>)
  {
    && |ioc| == |cmds|
    && forall i :: 0 <= i < |cmds| ==>
         ioc[i] == IocCmd(cmds[i].write, cmds[i].application, cmds[i].command, cmds[i].argument, Words4(0, 0, 0, 0),
                          cmds[i].flags, cmds[i].blockSize, cmds[i].blocks,
                          24 + 27 * |cmds| + Sum(BufLens(cmds)[..i]))
  }

  /** Response slots as the client reads them. */
  predicate Slots(body: seq<Byte>, cmds: seq<SdhciCommand>, responses: nat -> Words4, sense: U32, error: U32)
  {
    && |body| == 8 + 32 * |cmds| + Sum(BufLens(cmds)) && U64At(body, 0) == |cmds|
    && forall i :: 0 <= i < |cmds| ==>
         SlotAt(body, 8 + 32 * i) == (cmds[i].bufLen, responses(i), 0, sense, error)
  }

  /** The payload area of a reply. */
  function AreaOf(body: seq<Byte>, cmds: seq<SdhciCommand>): seq<Byte>
    requires 8 + 32 * |cmds| <= |body|
  {
    body[8 + 32 * |cmds|..]
  }

  lemma ShippedSlots(cmds: seq<SdhciCommand>, r: MultiResult, area: seq<Byte>, body: seq<Byte>,
                     responses: nat -> Words4, sense: U32, error: U32)
    requires |cmds| < 0x1_0000_0000_0000_0000 && |r.responses| == |cmds| && |area| == Sum(BufLens(cmds))
    requires body == MultiReplyHead(cmds, r) + area
    requires forall i :: 0 <= i < |cmds| ==> r.responses[i] == responses(i)
    requires r.duration == 0 && r.sense == sense && Bits32(r.ret) == error
    ensures Slots(body, cmds, responses, sense, error) && AreaOf(body, cmds) == area
  {
    hide SlotAt, U64At, MultiReplyHead, Sum;
    var r' := r.(area := area);
    SameSlots(cmds, r, area);
    MultiReplyRoundTrip(cmds, r');
    assert MultiReplyBody(cmds, r') == body;
  }

  lemma SameSlots(cmds: seq<SdhciCommand>, r: MultiResult, area: seq<Byte>)
    requires |r.responses| == |cmds|
    ensures MultiReplyHead(cmds, r.(area := area)) == MultiReplyHead(cmds, r)
  {
    hide EncodeResponse, LeBytes, Flatten;
    assert ResponseBlocks(cmds, r.(area := area)) == ResponseBlocks(cmds, r);
  }

  lemma MultiRequest(f: Frame, cmds: seq<SdhciCommand>, payloads: seq<seq<Byte>>)
    requires f.payload == RequestPayload(cmds, payloads) && |cmds| == |payloads| < 0x1_0000_0000_0000_0000
    requires forall i :: 0 <= i < |cmds| ==> |payloads[i]| == cmds[i].bufLen
    ensures var p := f.Encode();
            && MultiFits(p) && Commands(p) == cmds && PayloadEnd(cmds) == |p|
            && p[DataStart(|cmds|)..PayloadEnd(cmds)] == Flatten(payloads)
            && |Flatten(payloads)| == Sum(BufLens(cmds))
  {
    hide RequestPayload, RawFrame.Header, TableFits, Commands, Sum, Flatten;
    assert f.Encode() == EncodeRequest(f.Header(), cmds, payloads);
    RequestRoundTrip(f.Header(), cmds, payloads);
    RequestParts(f.Header(), cmds, payloads);
  }

  /** What the device makes of a multi-command request, or is made of it without a device. */
  lemma MultiResultBy(b: Backend, st: ServerState, p: seq<Byte>, cmds: seq<SdhciCommand>, area: seq<Byte>,
                      ioc: seq<IocCmd>)
    requires MultiFits(p) && Commands(p) == cmds && Entries(ioc, cmds)
    requires p[DataStart(|cmds|)..PayloadEnd(cmds)] == area && |area| == Sum(BufLens(cmds))
    ensures var r := MultiResultOf(b, st, p);
            && r.duration == 0
            && if st.ctx.Some? then
                 var io := b.multiIoctl(st.os.tick, st.ctx.value, ioc, area);
                 && r.ret == io.error && r.sense == (if io.error < 0 then 1 else 0)
                 && (forall i :: 0 <= i < |cmds| ==> r.responses[i] == io.responses(i))
                 && (|io.area| == |area| ==> r.area == io.area)
               else
                 && r.ret == -1 && r.sense == 0 && r.area == area && r.os == st.os
                 && (forall i :: 0 <= i < |cmds| ==> r.responses[i] == Words4(0, 0, 0, 0))
  {
    hide Sum, Commands, TableFits;
    assert IocCmds(Mmcs(cmds)) == ioc;
  }

  /**
   * A multi-command packet, type 28: the ioctl gets Entries and the payloads; every slot of the reply carries the
   * result of the ioctl, its errno and the device's response words, and sense 1 only for a negative one; with equal
   * payload lengths the payloads are those the device left. Without a device every slot says -1 and the payloads are
   * the client's own.
   */
  lemma MultiAnswer(h: Host, b: Backend, st: ServerState, f: Frame, cmds: seq<SdhciCommand>, payloads: seq<seq<Byte>>,
                    ioc: seq<IocCmd>)
    requires f.version == 1 && f.ptype == 28 && f.payload == RequestPayload(cmds, payloads) && FrameOk(f)
    requires |cmds| == |payloads| < 0x1_0000_0000_0000_0000 && Entries(ioc, cmds)
    requires forall i :: 0 <= i < |cmds| ==> |payloads[i]| == cmds[i].bufLen
    ensures var o := Step(h, b, st, f);
            && |o.replies| == 1 && o.replies[0].ptype == 29 && o.state.ctx == st.ctx
            && var body := o.replies[0].body;
               if st.ctx.Some? then
                 var io := b.multiIoctl(st.os.tick, st.ctx.value, ioc, Flatten(payloads));
                 && Slots(body, cmds, io.responses, if io.error < 0 then 1 else 0, Bits32(io.error))
                 && (|io.area| == Sum(BufLens(cmds)) && MultiCopy.Uniform(BufLens(cmds)) ==>
                       AreaOf(body, cmds) == io.area)
               else
                 && Slots(body, cmds, (i: nat) => Words4(0, 0, 0, 0), 0, 0xFFFF_FFFF)
                 && (MultiCopy.Uniform(BufLens(cmds)) ==> AreaOf(body, cmds) == Flatten(payloads))
  {
    hide RawFrame.Encode, Step, FrameOk, MultiReplyHead, Slots, AreaOf, MultiOk, MultiResultOf, ShippedArea, Entries,
         Commands, MultiFits, RequestPayload, MultiCopy.Uniform, Sum, Flatten;
    var p := f.Encode();
    MultiRequest(f, cmds, payloads);
    MultiFrame(f);
    StepIsTransfer(h, b, st, f);
    MultiResultBy(b, st, p, cmds, Flatten(payloads), ioc);
    var r, area := MultiResultOf(b, st, p), ShippedArea(b, st, p);
    var responses := if st.ctx.Some? then b.multiIoctl(st.os.tick, st.ctx.value, ioc, Flatten(payloads)).responses
                     else (i: nat) => Words4(0, 0, 0, 0);
    ShippedSlots(cmds, r, area, MultiReplyHead(cmds, r) + area, responses, r.sense, Bits32(r.ret));
    if MultiCopy.Uniform(BufLens(cmds)) {
      UniformIsRight(b, st, p);
      MultiRightWhen(b, st, p);
    }
  }

  lemma MultiFrame(f: Frame)
    requires FrameOk(f) && f.version == 1 && f.ptype == 28
    ensures MultiOk(f.Encode()) && MultiFits(f.Encode())
  {
    hide RawFrame.Encode, MultiFits;
  }

  // OSREAD.

  /** An errno and a buffer of `length` bytes. */
  predicate ReadsBack(body: seq<Byte>, length: nat, error: U32, data: seq<Byte>)
  {
    && |body| == 8 + length && U32At(body, 0) == error && body[4..8] == [0, 0, 0, 0]
    && var n := if |data| < length then |data| else length;
       && body[8..8 + n] == data[..n] && forall i :: 8 + n <= i < 8 + length ==> body[i] == 0
  }

  /** A seek to the offset and then a read, or the errno of the one that failed. */
  predicate ReadOutcome(k: Kernel, t: nat, fd: int, offset: U64, length: U32, body: seq<Byte>)
  {
    var e := k.seekError(t, fd, offset);
    if e != 0 then ReadsBack(body, length, e, [])
    else
      var r := k.read(t + 1, fd, length);
      if r.ReadOk? then ReadsBack(body, length, 0, r.data) else ReadsBack(body, length, r.errno, [])
  }

  lemma ReadBody(length: U32, error: U32, data: seq<Byte>)
    ensures ReadsBack(LeBytes(error, 4) + LeBytes(0, 4) + ReadInto(length, data), length, error, data)
  {
    hide LeBytes, U32At;
    var body := LeBytes(error, 4) + LeBytes(0, 4) + ReadInto(length, data);
    U32AtLe(body, 0, error);
    ZeroWord();
    assert body[4..8] == LeBytes(0, 4);
    assert body[8..] == ReadInto(length, data);
  }

  lemma ReadNothing(length: nat)
    ensures ReadInto(length, []) == Zeros(length)
  {
  }

  lemma OsReadRequest(f: Frame, offset: U64, length: U32)
    requires f.payload == LeBytes(offset, 8) + LeBytes(length, 4) && 24 + length < INT32_LIMIT
    ensures var p := f.Encode(); OsReadOk(p) && U64At(p, 16) == offset && U32At(p, 24) == length
  {
    hide LeBytes, U32At, U64At, RawFrame.Header;
    var p := f.Encode();
    U64AtLe(p, 16, offset);
    U32AtLe(p, 24, length);
  }

  /**
   * An OSREAD packet, type 31: the descriptor is moved to the client's offset and read from; the client gets the bytes
   * in front of as many zeros as are missing, or the errno of what failed, or -1 without a device, and zeros.
   */
  lemma OsReadAnswer(h: Host, b: Backend, st: ServerState, f: Frame, offset: U64, length: U32)
    requires f.version == 1 && f.ptype == 31 && f.payload == LeBytes(offset, 8) + LeBytes(length, 4)
    requires 24 + length < INT32_LIMIT
    ensures FrameOk(f)
    ensures var k, t, o := b.kernel, st.os.tick, Step(h, b, st, f);
            && |o.replies| == 1 && o.replies[0].ptype == 32 && o.state.ctx == st.ctx
            && (st.ctx.None? ==> ReadsBack(o.replies[0].body, length, 0xFFFF_FFFF, []))
            && (st.ctx.Some? ==> ReadOutcome(k, t, st.ctx.value.fd, offset, length, o.replies[0].body))
  {
    hide LeBytes, U32At, U64At, RawFrame.Encode, Step, FrameOk, OsReadOk, ReadsBack, ReadInto, Zeros;
    OsReadRequest(f, offset, length);
    StepIsTransfer(h, b, st, f);
    ReadNothing(length);
    if st.ctx.None? {
      ReadBody(length, 0xFFFF_FFFF, []);
    } else {
      var r := b.kernel.read(st.os.tick + 1, st.ctx.value.fd, length);
      ReadBody(length, b.kernel.seekError(st.os.tick, st.ctx.value.fd, offset), []);
      if r.ReadOk? {
        ReadBody(length, 0, r.data);
      } else {
        ReadBody(length, r.errno, []);
      }
    }
  }

  // The packets that are a header alone.

  lemma StepIsQuery(h: Host, b: Backend, st: ServerState, f: Frame)
    requires f.version == 1 && f.ptype in {2, 15, 17, 19, 21, 23, 26}
    ensures FrameOk(f) && Step(h, b, st, f) == One(QueryStep(h, b, st, f.ptype))
  {
    hide RawFrame.Encode, QueryStep;
  }

  /** LIST_DEVICES, type 2: how many devices, and record i is device i; the NOP of reason 3 exactly for none. */
  lemma ListAnswer(h: Host, b: Backend, st: ServerState, f: Frame)
    requires f.version == 1 && f.ptype == 2 && |st.nopError| == 4
    ensures FrameOk(f)
    ensures var devices, o := b.listDevices(st.os.tick), Step(h, b, st, f);
            && |o.replies| == 1 && o.state.ctx == st.ctx
            && var body := o.replies[0].body;
               if devices == [] then
                 SaysNop(o.replies[0], 3, "Could not get device list, continuing...", st.nopError)
               else
                 && o.replies[0].ptype == 3 && |body| == 2 + 2052 * |devices| && U16At(body, 0) == |devices|
                 && forall i :: 0 <= i < |devices| ==> body[2 + 2052 * i..2 + 2052 * i + 2052] == devices[i]
  {
    hide Step, FrameOk, SaysNop, NopBody, ListDevices.ListBody, U16At;
    StepIsQuery(h, b, st, f);
    NopSays(3, "Could not get device list, continuing...", st.nopError);
    ListDevices.ListReplyCut(b.listDevices(st.os.tick));
  }

  /** GET_DEVTYPE, type 15. */
  lemma DevTypeAnswer(h: Host, b: Backend, st: ServerState, f: Frame)
    requires f.version == 1 && f.ptype == 15
    ensures FrameOk(f)
    ensures var o := Step(h, b, st, f);
            && |o.replies| == 1 && o.replies[0].ptype == 16 && |o.replies[0].body| == 4 && o.state.ctx == st.ctx
            && U32At(o.replies[0].body, 0) == Bits32(b.deviceType(st.os.tick, st.ctx))
  {
    hide Step, FrameOk, LeBytes, U32At;
    StepIsQuery(h, b, st, f);
    U32AtLe(DevTypeStep(b, st).1.body, 0, Bits32(b.deviceType(st.os.tick, st.ctx)));
  }

  /** GET_SDHCI_REGISTERS, type 17. */
  lemma RegistersAnswer(h: Host, b: Backend, st: ServerState, f: Frame)
    requires f.version == 1 && f.ptype == 17
    ensures FrameOk(f)
    ensures var r, o := b.registers(st.os.tick, st.ctx), Step(h, b, st, f);
            && |o.replies| == 1 && o.replies[0].ptype == 18 && |o.replies[0].body| == 61 && o.state.ctx == st.ctx
            && var s := o.replies[0].body;
               && s[0] == r.isSdhci % 256
               && RegisterAt(s, 1, 45) == r.csd[..Min(|r.csd|, 16)]
               && RegisterAt(s, 17, 49) == r.cid[..Min(|r.cid|, 16)]
               && RegisterAt(s, 33, 53) == r.ocr[..Min(|r.ocr|, 4)]
               && RegisterAt(s, 37, 57) == r.scr[..Min(|r.scr|, 8)]
  {
    hide Step, FrameOk, RegistersBody, RegisterAt;
    StepIsQuery(h, b, st, f);
    RegistersReplyRoundTrip(b.registers(st.os.tick, st.ctx));
  }

  /** GET_USB_DATA, type 19: the fields at their offsets, identifiers and length as the host stores them. */
  lemma UsbAnswer(h: Host, b: Backend, st: ServerState, f: Frame)
    requires f.version == 1 && f.ptype == 19
    ensures FrameOk(f)
    ensures var d, o := b.usb(st.os.tick, st.ctx), Step(h, b, st, f);
            && |o.replies| == 1 && o.replies[0].ptype == 20 && |o.replies[0].body| == 66311 && o.state.ctx == st.ctx
            && var s := o.replies[0].body;
               && s[0] == d.isUsb && s[1..3] == (if h.order.Little? then LeBytes(d.descLen, 2) else [0, 0])
               && s[3..65539] == d.descriptors && s[65539..65541] == Image(h.order, d.idVendor, 2)
               && s[65541..65543] == Image(h.order, d.idProduct, 2) && s[65543..65799] == d.manufacturer
               && s[65799..66055] == d.product && s[66055..] == d.serial
  {
    hide Step, FrameOk, UsbBody, LeBytes, Image, MisSized;
    StepIsQuery(h, b, st, f);
    var d := b.usb(st.os.tick, st.ctx);
    HostOrder.UsbParts(h.order, d);
    SentLength(h.order, d.descLen);
    ThreeTexts(UsbBody(h.order, d)[65543..], d.manufacturer, d.product, d.serial);
    SliceOfSlice(UsbBody(h.order, d), 65543, 66311, 0, 256);
    SliceOfSlice(UsbBody(h.order, d), 65543, 66311, 256, 512);
    SliceOfSlice(UsbBody(h.order, d), 65543, 66311, 512, 768);
    assert UsbBody(h.order, d)[65543..66311] == UsbBody(h.order, d)[65543..];
  }

  lemma ThreeTexts(s: seq<Byte>, x: Text, y: Text, z: Text)
    requires s == x + y + z
    ensures |s| == 768 && s[0..256] == x && s[256..512] == y && s[512..768] == z
  {
  }

  lemma SentLength(order: ByteOrder, len: U16)
    ensures Image(order, MisSized(order, len), 2) == if order.Little? then LeBytes(len, 2) else [0, 0]
  {
    hide BSwap32;
    HostOrder.MisSizedLoses(len);
    assert LeBytes(0, 2) == [0, 0];
  }

  /** GET_FIREWIRE_DATA, type 21. */
  lemma FireWireAnswer(h: Host, b: Backend, st: ServerState, f: Frame)
    requires f.version == 1 && f.ptype == 21
    ensures FrameOk(f)
    ensures var d, o := b.fireWire(st.os.tick, st.ctx), Step(h, b, st, f);
            && |o.replies| == 1 && o.replies[0].ptype == 22 && |o.replies[0].body| == 529 && o.state.ctx == st.ctx
            && var s := o.replies[0].body;
               && s[0] == d.isFireWire && s[1..5] == Image(h.order, d.idModel, 4)
               && s[5..9] == Image(h.order, d.idVendor, 4) && s[9..17] == Image(h.order, d.guid, 8)
               && s[17..273] == d.vendor && s[273..] == d.model
  {
    hide Step, FrameOk, FireWireBody, LeBytes, Image;
    StepIsQuery(h, b, st, f);
    var d := b.fireWire(st.os.tick, st.ctx);
    HostOrder.FireWireParts(h.order, d);
    var s := FireWireBody(h.order, d);
    SliceOfSlice(s, 17, 529, 0, 256);
    SliceOfSlice(s, 17, 529, 256, 512);
    assert s[17..529] == s[17..] && (d.vendor + d.model)[0..256] == d.vendor;
    assert (d.vendor + d.model)[256..512] == d.model;
  }

  /** GET_PCMCIA_DATA, type 23, and the streams it leaves open. */
  lemma PcmciaAnswer(h: Host, b: Backend, st: ServerState, f: Frame)
    requires f.version == 1 && f.ptype == 23
    ensures FrameOk(f)
    ensures var d, o := b.pcmcia(st.os.tick, st.ctx), Step(h, b, st, f);
            && |o.replies| == 1 && o.replies[0].ptype == 24 && |o.replies[0].body| == 65539 && o.state.ctx == st.ctx
            && |o.state.os.streams| == |st.os.streams| + (if st.ctx.Some? then d.streams else 0)
            && var s := o.replies[0].body;
               && s[0] == d.isPcmcia && s[1..3] == (if h.order.Little? then LeBytes(d.cisLen, 2) else [0, 0])
               && s[3..] == d.cis
  {
    hide Step, FrameOk, PcmciaBody, LeBytes, Image, MisSized;
    StepIsQuery(h, b, st, f);
    var d := b.Pcmcia(st.os.tick, st.ctx);
    HostOrder.PcmciaParts(h.order, d);
    SentLength(h.order, d.cisLen);
  }

  /** AM_I_ROOT, type 26: 32 bits as the host stores them. */
  lemma AmIRootAnswer(h: Host, b: Backend, st: ServerState, f: Frame)
    requires f.version == 1 && f.ptype == 26
    ensures FrameOk(f)
    ensures var o := Step(h, b, st, f);
            && |o.replies| == 1 && o.replies[0].ptype == 27 && o.state.ctx == st.ctx
            && o.replies[0].body == Image(h.order, b.amIRoot(st.os.tick), 4)
  {
    hide Step, FrameOk, Image;
    StepIsQuery(h, b, st, f);
  }

  /** CLOSE, type 25: nothing is sent, the device's number leaves the table and the server forgets it. */
  lemma CloseAnswer(h: Host, b: Backend, st: ServerState, f: Frame)
    requires f.version == 1 && f.ptype == 25
    ensures FrameOk(f)
    ensures var o := Step(h, b, st, f);
            && o.replies == [] && o.state.ctx == None && o.state.nopError == st.nopError
            && o.state.os.Table() == if st.ctx.Some? then st.os.Table() - {st.ctx.value.fd} else st.os.Table()
  {
    hide RawFrame.Encode, Closed;
  }
}
