/** Client and server agree on variable-length packets: SCSI requests and replies, multi-SDHCI end to end. */
module RoundTrip {
  import opened Bytes
  import opened Layout
  import opened Endian
  import opened Packets
  import opened Devices
  import opened Backend
  import opened Sdhci
  import opened MultiSdhci
  import opened Server
  import opened Ata
  import MultiCopy

  // SCSI.

  /** What a client puts behind the header of a SCSI packet. */
  function ScsiPayload(a: ScsiArgs): (p: seq<Byte>)
    ensures |p| == 16 + |a.cdb| + |a.buffer|
  {
    LeBytes(|a.cdb|, 4) + LeBytes(|a.buffer|, 4) + LeBytes(a.direction, 4) + LeBytes(a.timeout, 4)
    + a.cdb + a.buffer
  }

  function EncodeScsi(header: seq<Byte>, a: ScsiArgs): (p: seq<Byte>)
  {
    header + ScsiPayload(a)
  }

  /**
   * The handler passes on exactly the client's CDB and data, for all lengths, empty ones included; the device is given
   * that CDB if and only if it is shorter than 256 bytes.
   */
  lemma ScsiRequestRoundTrip(header: seq<Byte>, a: ScsiArgs)
    requires |header| == HEADER_SIZE && 36 + SENSE_SIZE + |a.buffer| < INT32_LIMIT && |a.cdb| < INT32_LIMIT
    ensures ScsiOk(EncodeScsi(header, a))
    ensures ScsiRequest(EncodeScsi(header, a)) == a
    ensures SgRequest(ScsiRequest(EncodeScsi(header, a))).command == a.cdb <==> |a.cdb| < 0x100
  {
    hide LeBytes, U32At;
    hide SgRequest;
    WholeCommand(a);
    var p := EncodeScsi(header, a);
    U32AtLe(p, 16, |a.cdb|);
    U32AtLe(p, 20, |a.buffer|);
    U32AtLe(p, 24, a.direction);
    U32AtLe(p, 28, a.timeout);
    assert p[32..] == a.cdb + a.buffer;
    assert p[32..32 + |a.cdb|] == a.cdb;
    assert p[32 + |a.cdb|..32 + |a.cdb| + |a.buffer|] == a.buffer;
  }

  datatype ScsiReading = ScsiReading(senseData: seq<Byte>, buffer: seq<Byte>, duration: U32, sense: U32, error: U32)

  /** How a client takes a SCSI reply body apart: by the two lengths in it. */
  function ReadScsi(body: seq<Byte>): (r: Option<ScsiReading>)
  {
    if |body| < 20 then None
    else
      var senseLen: nat, bufLen: nat := U32At(body, 0), U32At(body, 4);
      if 20 + senseLen + bufLen != |body| then None
      else Some(ScsiReading(body[20..20 + senseLen], body[20 + senseLen..], U32At(body, 8), U32At(body, 12),
                            U32At(body, 16)))
  }

  lemma ScsiReplyRoundTrip(r: ScsiResult)
    requires |r.buffer| < 0x1_0000_0000
    ensures ReadScsi(ScsiBody(r)) == Some(ScsiReading(r.senseData, r.buffer, r.duration, r.sense, Bits32(r.ret)))
  {
    hide LeBytes, U32At;
    var s := ScsiBody(r);
    U32AtLe(s, 0, |r.senseData|);
    U32AtLe(s, 4, |r.buffer|);
    U32AtLe(s, 8, r.duration);
    U32AtLe(s, 12, r.sense);
    U32AtLe(s, 16, Bits32(r.ret));
    assert s[20..] == r.senseData + r.buffer;
    assert s[20..20 + |r.senseData|] == r.senseData;
    assert s[20 + |r.senseData|..] == r.buffer;
  }

  /** An OSREAD reply: errno and the data asked for. */
  lemma OsReadReplyRoundTrip(b: Backend, st: ServerState, p: seq<Byte>)
    requires OsReadOk(p)
    ensures var r := OsReadSpec(b.kernel, st.os, st.ctx, U64At(p, 16), U32At(p, 24));
            var s := OsReadStep(b, st, p).1.body;
            |s| == 8 + U32At(p, 24) as int && U32At(s, 0) == Bits32(r.ret) && s[8..] == r.data
  {
    hide LeBytes, U32At, U64At, OsReadSpec;
    var r := OsReadSpec(b.kernel, st.os, st.ctx, U64At(p, 16), U32At(p, 24));
    U32AtLe(OsReadStep(b, st, p).1.body, 0, Bits32(r.ret));
  }

  // NOP.

  function ReadDecimal(s: string): nat
  {
    if s == [] then 0
    else
      var d := s[|s| - 1];
      10 * ReadDecimal(s[..|s| - 1]) + if '0' <= d <= '9' then (d - '0') as int else 0
  }

  lemma {:induction false} DecimalRoundTrip(n: nat)
    ensures ReadDecimal(Decimal(n)) == n
  {
    var s := Decimal(n);
    assert s[|s| - 1] == "0123456789"[n % 10];
    DigitValue(n % 10);
    if n < 10 {
      assert s[..|s| - 1] == "";
    } else {
      assert s[..|s| - 1] == Decimal(n / 10);
      DecimalRoundTrip(n / 10);
    }
  }

  lemma DigitValue(d: nat)
    requires d < 10
    ensures var c := "0123456789"[d]; '0' <= c <= '9' && (c - '0') as int == d
  {
  }

  /** The number behind an optional sign, as 8 bits. */
  function ReadType(s: string): (t: Byte)
  {
    if s != [] && s[0] == '-' then (0x100 - ReadDecimal(s[1..]) as int) % 0x100 else ReadDecimal(s) % 0x100
  }

  lemma {:induction false} NoSign(n: nat)
    ensures Decimal(n) != [] && '0' <= Decimal(n)[0] <= '9'
  {
    DigitValue(n % 10);
    if n >= 10 {
      NoSign(n / 10);
    }
  }

  /** Every packet type reads back from the text of the NOP that refuses it, those of 80h and above from a minus. */
  lemma PrintedTypeRoundTrip(t: Byte)
    ensures ReadType(PrintedType(t)) == t
    ensures PrintedType(t)[0] == '-' <==> t >= 0x80
  {
    hide Decimal, ReadDecimal;
    if t < 0x80 {
      NoSign(t);
      DecimalRoundTrip(t);
    } else {
      var n := 0x100 - t as int;
      DecimalRoundTrip(n);
      assert PrintedType(t)[1..] == Decimal(n);
    }
  }

  /** A NOP as a client reads it: reason, text up to the padding, error_no in the last four bytes. */
  lemma NopReplyRoundTrip(reason: Byte, text: string, error: seq<Byte>)
    requires |error| == 4 && |text| <= 256
    ensures var e := Nop(reason, text, error).Encode();
            && |e| == NOP_SIZE && e[16] == reason && e[20..20 + |text|] == Ascii(text)
            && (forall i :: 20 + |text| <= i < 276 ==> e[i] == 0) && e[276..280] == error
  {
    hide LeBytes, HeaderBytes, Ascii, Padded;
    var body := NopBody(reason, text, error);
    var padded := Padded(Ascii(text), 256);
    assert body == [reason, 0, 0, 0] + padded + error;
    var e := Nop(reason, text, error).Encode();
    assert e == e[..16] + body;
    NopSlices(e, body, padded, error);
    PaddedText(Ascii(text), padded);
    SliceOfSlice(e, 20, 276, 0, |text|);
  }

  lemma NopSlices(e: seq<Byte>, body: seq<Byte>, padded: seq<Byte>, error: seq<Byte>)
    requires |e| == NOP_SIZE && |padded| == 256 && |error| == 4 && |body| == 264 && e[16..] == body
    requires body == body[..4] + padded + error
    ensures e[16] == body[0] && e[20..276] == padded && e[276..280] == error
    ensures forall i :: 20 <= i < 276 ==> e[i] == padded[i - 20]
  {
    assert body[4..260] == padded && body[260..264] == error;
    SliceOfSlice(e, 16, NOP_SIZE, 4, 260);
    SliceOfSlice(e, 16, NOP_SIZE, 260, 264);
    assert e[16..NOP_SIZE] == e[16..];
    assert forall i :: 20 <= i < 276 ==> e[i] == e[20..276][i - 20];
  }

  lemma PaddedText(b: seq<Byte>, padded: seq<Byte>)
    requires |b| <= 256 && padded == Padded(b, 256)
    ensures padded[0..|b|] == b && forall i :: |b| <= i < 256 ==> padded[i] == 0
  {
  }

  // ATA.

  /** An LBA48 request as a client packs it, integers little-endian. */
  function Ata48Payload(r: Registers48, t: Transfer, timeout: U32, data: seq<Byte>): (p: seq<Byte>)
    ensures |p| == 24 + |data|
  {
    LeBytes(|data|, 4) + LeBytes(r.feature, 2) + LeBytes(r.count, 2)
    + [r.lowPrev, r.low, r.midPrev, r.mid, r.highPrev, r.high, r.deviceHead, r.command]
    + [t.protocol, t.register, t.blocks, 0] + LeBytes(timeout, 4) + data
  }

  function EncodeAta48(header: seq<Byte>, r: Registers48, t: Transfer, timeout: U32, data: seq<Byte>): seq<Byte>
  {
    header + Ata48Payload(r, t, timeout, data)
  }

  lemma Ata48RequestParts(header: seq<Byte>, r: Registers48, t: Transfer, timeout: U32, data: seq<Byte>)
    requires |header| == HEADER_SIZE && 43 + |data| < INT32_LIMIT
    ensures var p := EncodeAta48(header, r, t, timeout, data);
            && Ata48Ok(p) && U32At(p, 16) == |data| && U32At(p, 36) == timeout
            && Request48(Little, p) == r && Transfer(p[32], p[33], p[34]) == t
            && p[20..22] == LeBytes(r.feature, 2)
            && p[40..40 + |data|] == data
  {
    hide LeBytes, U32At, FromLe;
    var p := EncodeAta48(header, r, t, timeout, data);
    U32AtLe(p, 16, |data|);
    U32AtLe(p, 36, timeout);
    Pow256Values();
    assert p[20..22] == LeBytes(r.feature, 2) && p[22..24] == LeBytes(r.count, 2);
    FromLeBytes(r.feature, 2);
    FromLeBytes(r.count, 2);
  }

  datatype Ata48Reading = Ata48Reading(errors: Errors48, buffer: seq<Byte>, duration: U32, sense: U32, error: U32)

  /** How a client reads an LBA48 reply body. */
  function ReadAta48(s: seq<Byte>): (r: Option<Ata48Reading>)
  {
    if |s| < 27 || 27 + U32At(s, 0) as int != |s| then None
    else Some(Ata48Reading(
      Errors48(s[4], s[5], U16At(s, 6), s[8], s[9], s[10], s[11], s[12], s[13], s[14]),
      s[27..], U32At(s, 15), U32At(s, 19), U32At(s, 23)))
  }

  lemma Ata48ReplyRoundTrip(r: AtaResult<Errors48>)
    requires |r.buffer| < 0x1_0000_0000
    ensures ReadAta48(Ata48Body(r)) == Some(Ata48Reading(r.errors, r.buffer, r.duration, r.sense, Bits32(r.ret)))
  {
    hide LeBytes, U32At, FromLe;
    var s, e := Ata48Body(r), ErrorBytes48(r.errors);
    U32AtLe(s, 0, |r.buffer|);
    U32AtLe(s, 15, r.duration);
    U32AtLe(s, 19, r.sense);
    U32AtLe(s, 23, Bits32(r.ret));
    assert s[4..15] == e;
    SliceOfSlice(s, 4, 15, 2, 4);
    assert e[2..4] == LeBytes(r.errors.count, 2);
    Pow256Values();
    FromLeBytes(r.errors.count, 2);
    assert forall i :: 4 <= i < 15 ==> s[i] == s[4..15][i - 4];
  }

  /**
   * feature is not swapped: a little-endian machine reads the request as packed, a big-endian one with the two bytes
   * of feature exchanged, which is as packed exactly when they are equal.
   */
  lemma FeatureRead(order: ByteOrder, header: seq<Byte>, r: Registers48, t: Transfer, timeout: U32, data: seq<Byte>)
    requires |header| == HEADER_SIZE && 43 + |data| < INT32_LIMIT
    ensures var p := EncodeAta48(header, r, t, timeout, data);
            && Request48(order, p) == r.(feature := HToLe16(order, r.feature))
            && (Request48(order, p) == r <==> order.Little? || r.feature / 0x100 == r.feature % 0x100)
  {
    hide U32At, FromLe, LeBytes, EncodeAta48, BSwap16, Reverse;
    var p := EncodeAta48(header, r, t, timeout, data);
    Ata48RequestParts(header, r, t, timeout, data);
    Pow256Values();
    FromLeBytes(r.feature, 2);
    BSwapMirrors16(p[20..22]);
    SwapFixed(r.feature);
  }

  lemma SwapFixed(x: U16)
    ensures BSwap16(x) == x <==> x / 0x100 == x % 0x100
  {
  }

  lemma LoadedFeature(feature: U16, count: U16, lba: nat, deviceHead: Byte, command: Byte, feature': U16)
    requires lba < 0x1_0000_0000_0000
    ensures var r := Load48(feature, count, lba, deviceHead, command);
            r.feature == feature && r.(feature := feature') == Load48(feature', count, lba, deviceHead, command)
  {
  }

  lemma SenseParts(signed: bool, header: seq<Byte>, extend: Byte, e: Errors48)
    requires |header| == 8
    ensures var s := StatusReturn(header, extend, e);
            && Accepted(s) && Sense48(signed, s).error == e.error && Sense48(signed, s).status == e.status
            && (Sense48(signed, s) == e <==> !signed || e.count % 0x100 < 0x80)
  {
    hide StatusReturn, Sense48;
    SenseRoundTrip(signed, header, extend, e);
  }

  /** A CHS or LBA28 request as a client packs it. */
  function Ata28Payload(r: Registers28, t: Transfer, timeout: U32, data: seq<Byte>): (p: seq<Byte>)
    ensures |p| == 19 + |data|
  {
    LeBytes(|data|, 4) + [r.feature, r.count, r.low, r.mid, r.high, r.deviceHead, r.command]
    + [t.protocol, t.register, t.blocks, 0] + LeBytes(timeout, 4) + data
  }

  function EncodeAta28(header: seq<Byte>, r: Registers28, t: Transfer, timeout: U32, data: seq<Byte>): seq<Byte>
  {
    header + Ata28Payload(r, t, timeout, data)
  }

  lemma Ata28RequestParts(header: seq<Byte>, r: Registers28, t: Transfer, timeout: U32, data: seq<Byte>)
    requires |header| == HEADER_SIZE && 39 + |data| < INT32_LIMIT
    ensures var p := EncodeAta28(header, r, t, timeout, data);
            && Ata28Ok(p) && U32At(p, 16) == |data| && U32At(p, 31) == timeout
            && Request28(p) == r && Transfer(p[27], p[28], p[29]) == t && p[35..35 + |data|] == data
  {
    hide LeBytes, U32At;
    var p := EncodeAta28(header, r, t, timeout, data);
    U32AtLe(p, 16, |data|);
    U32AtLe(p, 31, timeout);
  }

  datatype Ata28Reading = Ata28Reading(errors: Errors28, buffer: seq<Byte>, duration: U32, sense: U32, error: U32)

  /** How a client reads a CHS or LBA28 reply body. */
  function ReadAta28(s: seq<Byte>): (r: Option<Ata28Reading>)
  {
    if |s| < 23 || 23 + U32At(s, 0) as int != |s| then None
    else Some(Ata28Reading(Errors28(s[4], s[5], s[6], s[7], s[8], s[9], s[10]),
                           s[23..], U32At(s, 11), U32At(s, 15), U32At(s, 19)))
  }

  lemma Ata28ReplyRoundTrip(r: AtaResult<Errors28>)
    requires |r.buffer| < 0x1_0000_0000
    ensures ReadAta28(Ata28Body(r)) == Some(Ata28Reading(r.errors, r.buffer, r.duration, r.sense, Bits32(r.ret)))
  {
    hide LeBytes, U32At;
    var s := Ata28Body(r);
    U32AtLe(s, 0, |r.buffer|);
    U32AtLe(s, 11, r.duration);
    U32AtLe(s, 15, r.sense);
    U32AtLe(s, 19, Bits32(r.ret));
    assert s[4..11] == ErrorBytes28(r.errors);
    assert forall i :: 4 <= i < 11 ==> s[i] == s[4..11][i - 4];
  }

  // Multi-SDHCI.

  /** One response slot as a client reads it. */
  function SlotAt(body: seq<Byte>, off: nat): (U32, Words4, U32, U32, U32)
    requires off + RESPONSE_SIZE <= |body|
  {
    (U32At(body, off),
     Words4(U32At(body, off + 4), U32At(body, off + 8), U32At(body, off + 12), U32At(body, off + 16)),
     U32At(body, off + 20), U32At(body, off + 24), U32At(body, off + 28))
  }

  lemma SlotEncoded(body: seq<Byte>, off: nat, bufLen: U32, w: Words4, duration: U32, sense: U32, error: U32)
    requires off + RESPONSE_SIZE <= |body|
    requires body[off..off + RESPONSE_SIZE] == EncodeResponse(bufLen, w, duration, sense, error)
    ensures SlotAt(body, off) == (bufLen, w, duration, sense, error)
  {
    hide LeBytes, U32At;
    var s := EncodeResponse(bufLen, w, duration, sense, error);
    FieldOf(body, off, s, 0, bufLen);
    FieldOf(body, off, s, 4, w.w0);
    FieldOf(body, off, s, 8, w.w1);
    FieldOf(body, off, s, 12, w.w2);
    FieldOf(body, off, s, 16, w.w3);
    FieldOf(body, off, s, 20, duration);
    FieldOf(body, off, s, 24, sense);
    FieldOf(body, off, s, 28, error);
  }

  /** The single-command reply: slot, then data. */
  lemma SdhciReplyRoundTrip(bufLen: U32, r: SdhciResult)
    ensures var s := SdhciBody(bufLen, r);
            && SlotAt(s, 0) == (bufLen, r.response, r.duration, r.sense, Bits32(r.ret))
            && s[RESPONSE_SIZE..] == r.buffer
  {
    hide EncodeResponse, SlotAt;
    var s := SdhciBody(bufLen, r);
    assert s[0..0 + RESPONSE_SIZE] == EncodeResponse(bufLen, r.response, r.duration, r.sense, Bits32(r.ret));
    SlotEncoded(s, 0, bufLen, r.response, r.duration, r.sense, Bits32(r.ret));
  }

  /** A register of the registers reply as a client reads it: so many bytes of a fixed field. */
  function RegisterAt(s: seq<Byte>, field: nat, lenField: nat): (r: seq<Byte>)
    requires field + 16 <= |s| && lenField + 4 <= |s|
  {
    s[field..field + Min(U32At(s, lenField), 16)]
  }

  /** Each register comes back cut to the room the packet has for it: 16, 16, 4 and 8 bytes. */
  lemma RegistersReplyRoundTrip(r: Registers)
    ensures var s := RegistersBody(r);
            && s[0] == r.isSdhci % 0x100
            && RegisterAt(s, 1, 45) == r.csd[..Min(|r.csd|, 16)]
            && RegisterAt(s, 17, 49) == r.cid[..Min(|r.cid|, 16)]
            && RegisterAt(s, 33, 53) == r.ocr[..Min(|r.ocr|, 4)]
            && RegisterAt(s, 37, 57) == r.scr[..Min(|r.scr|, 8)]
  {
    hide LeBytes, U32At, Padded;
    var s := RegistersBody(r);
    var front := [r.isSdhci % 0x100] + Padded(r.csd, 16) + Padded(r.cid, 16) + Padded(r.ocr, 4) + Padded(r.scr, 8);
    var l0, l1, l2, l3: nat := Min(|r.csd|, 16), Min(|r.cid|, 16), Min(|r.ocr|, 4), Min(|r.scr|, 8);
    FourBlocks(front, LeBytes(l0, 4), LeBytes(l1, 4), LeBytes(l2, 4), LeBytes(l3, 4));
    U32AtLe(s, 45, l0);
    U32AtLe(s, 49, l1);
    U32AtLe(s, 53, l2);
    U32AtLe(s, 57, l3);
    FourBlocks([r.isSdhci % 0x100], Padded(r.csd, 16), Padded(r.cid, 16), Padded(r.ocr, 4), Padded(r.scr, 8));
    assert s[..45] == front;
    FrontPadded(s, 45, 1, r.csd, 16);
    FrontPadded(s, 45, 17, r.cid, 16);
    FrontPadded(s, 45, 33, r.ocr, 4);
    FrontPadded(s, 45, 37, r.scr, 8);
  }

  /** Four blocks behind a front, each found where the lengths before it add up to. */
  lemma FourBlocks(front: seq<Byte>, a: seq<Byte>, b: seq<Byte>, c: seq<Byte>, d: seq<Byte>)
    ensures var s, i := front + a + b + c + d, |front|;
            && s[..i] == front && s[i..i + |a|] == a && s[i + |a|..i + |a| + |b|] == b
            && s[i + |a| + |b|..i + |a| + |b| + |c|] == c
            && s[i + |a| + |b| + |c|..i + |a| + |b| + |c| + |d|] == d
  {
  }

  lemma FrontPadded(s: seq<Byte>, n: nat, off: nat, b: seq<Byte>, size: nat)
    requires n <= |s| && off + size <= n && s[..n][off..off + size] == Padded(b, size)
    ensures s[off..off + Min(|b|, size)] == b[..Min(|b|, size)]
  {
    hide Padded;
    SliceOfSlice(s, 0, n, off, off + size);
    assert s[0..n] == s[..n];
    PaddedAt(s, off, b, size);
  }

  lemma PaddedAt(s: seq<Byte>, off: nat, b: seq<Byte>, size: nat)
    requires off + size <= |s| && s[off..off + size] == Padded(b, size)
    ensures s[off..off + Min(|b|, size)] == b[..Min(|b|, size)]
  {
    SliceOfSlice(s, off, off + size, 0, Min(|b|, size));
  }

  /** Where a client looks for payload i of a reply to `cmds`. */
  function ReplyOffset(cmds: seq<SdhciCommand>, i: nat): nat
    requires i <= |cmds|
  {
    8 + RESPONSE_SIZE * |cmds| + Sum(BufLens(cmds)[..i])
  }

  /**
   * A client that reads the count, then the slots, then splits the rest by the declared lengths recovers slot i's
   * words and every payload in order; the reply is exactly that long.
   */
  lemma MultiReplyRoundTrip(cmds: seq<SdhciCommand>, r: MultiResult)
    requires |cmds| < 0x1_0000_0000_0000_0000 && |r.responses| == |cmds| && |r.area| == Sum(BufLens(cmds))
    ensures var s := MultiReplyBody(cmds, r);
            && U64At(s, 0) == |cmds|
            && |s| == 8 + RESPONSE_SIZE * |cmds| + Sum(BufLens(cmds))
            && (forall i :: 0 <= i < |cmds| ==>
                  && SlotAt(s, 8 + RESPONSE_SIZE * i)
                     == (cmds[i].bufLen, r.responses[i], r.duration, r.sense, Bits32(r.ret))
                  && Sum(BufLens(cmds)[..i]) + cmds[i].bufLen as int <= |r.area|
                  && s[ReplyOffset(cmds, i)..ReplyOffset(cmds, i) + cmds[i].bufLen as int]
                     == r.area[Sum(BufLens(cmds)[..i])..Sum(BufLens(cmds)[..i]) + cmds[i].bufLen as int])
  {
    hide LeBytes, U64At, Sum, SlotAt, EncodeResponse, Flatten;
    var s, lens, blocks := MultiReplyBody(cmds, r), BufLens(cmds), ResponseBlocks(cmds, r);
    BlocksLength(blocks);
    U64AtLe(s, 0, |cmds|);
    var start := 8 + RESPONSE_SIZE * |cmds|;
    assert s[8..start] == Flatten(blocks) && s[start..] == r.area;
    assert lens[..|lens|] == lens;
    forall i | 0 <= i < |cmds|
      ensures SlotAt(s, 8 + RESPONSE_SIZE * i) == (cmds[i].bufLen, r.responses[i], r.duration, r.sense, Bits32(r.ret))
      ensures Sum(lens[..i]) + lens[i] <= |r.area|
      ensures s[ReplyOffset(cmds, i)..ReplyOffset(cmds, i) + lens[i]]
              == r.area[Sum(lens[..i])..Sum(lens[..i]) + lens[i]]
    {
      FlattenBlock(blocks, RESPONSE_SIZE, i);
      SliceOfSlice(s, 8, start, i * RESPONSE_SIZE, i * RESPONSE_SIZE + RESPONSE_SIZE);
      SlotEncoded(s, 8 + RESPONSE_SIZE * i, cmds[i].bufLen, r.responses[i], r.duration, r.sense, Bits32(r.ret));
      SumMonotone(lens, i, |lens|);
      SliceOfSlice(s, start, |s|, Sum(lens[..i]), Sum(lens[..i]) + lens[i]);
    }
  }

  // The reply as shipped is that reply for equal lengths only.

  /** The backend with `area` as what the device leaves in the data area. */
  function WithArea(b: Backend, area: seq<Byte>): Backend
  {
    b.(multiIoctl := (tick: nat, ctx: Ctx, cmds: seq<IocCmd>, before: seq<Byte>) =>
         b.multiIoctl(tick, ctx, cmds, before).(area := area))
  }

  predicate MultiRight(b: Backend, st: ServerState, p: seq<Byte>)
    requires MultiOk(p)
  {
    MultiStep(b, st, p).1.body == MultiReplyBody(Commands(p), MultiResultOf(b, st, p))
  }

  lemma SameHead(head: seq<Byte>, x: seq<Byte>, y: seq<Byte>)
    ensures head + x == head + y <==> x == y
  {
    assert (head + x)[|head|..] == x && (head + y)[|head|..] == y;
  }

  lemma MultiRightWhen(b: Backend, st: ServerState, p: seq<Byte>)
    requires MultiOk(p)
    ensures MultiRight(b, st, p) <==> ShippedArea(b, st, p) == MultiResultOf(b, st, p).area
  {
    hide MultiReplyHead, ShippedArea, MultiResultOf, MultiCopy.Safe, CommandAt, U64At, Sum;
    SameHead(MultiReplyHead(Commands(p), MultiResultOf(b, st, p)), ShippedArea(b, st, p),
             MultiResultOf(b, st, p).area);
  }

  /**
   * For each multi-SDHCI request the reply holds every payload the device can leave behind if and only if all
   * commands carry the length of command 0.
   */
  lemma MultiRightIffUniform(b: Backend, st: ServerState, p: seq<Byte>)
    requires MultiOk(p) && st.ctx.Some?
    ensures (forall area: seq<Byte> :: |area| == Sum(BufLens(Commands(p))) ==> MultiRight(WithArea(b, area), st, p))
            <==> MultiCopy.Uniform(BufLens(Commands(p)))
  {
    hide MultiRight, MultiCopy.Shipped, MultiCopy.Safe, MultiCopy.Uniform, CommandAt, U64At, Sum, MultiLeftover,
         MultiResultOf, WithArea;
    var cmds := Commands(p);
    var lens, rest, dst := BufLens(cmds), p[PayloadEnd(cmds)..], MultiLeftover(b, st.os.tick, p);
    forall area: seq<Byte> | |area| == Sum(lens)
      ensures MultiRight(WithArea(b, area), st, p)
              <==> MultiCopy.Safe(lens, |dst| + |rest|)
                   && MultiCopy.Shipped(lens, |lens|, area + rest, dst) == area
    {
      AreaChosen(b, area, st, p);
      MultiRightWhen(WithArea(b, area), st, p);
    }
    MultiCopy.ShippedIffUniform(lens, rest, dst);
  }

  lemma AreaChosen(b: Backend, area: seq<Byte>, st: ServerState, p: seq<Byte>)
    requires MultiFits(p) && |area| == Sum(BufLens(Commands(p))) && st.ctx.Some?
    ensures MultiResultOf(WithArea(b, area), st, p).area == area
    ensures MultiLeftover(WithArea(b, area), st.os.tick, p) == MultiLeftover(b, st.os.tick, p)
  {
    hide CommandAt, U64At, Sum, Mmcs;
  }

  /** With equal lengths the reply is the intended one whatever backend, state and trailing bytes are. */
  lemma UniformIsRight(b: Backend, st: ServerState, p: seq<Byte>)
    requires MultiOk(p) && MultiCopy.Uniform(BufLens(Commands(p)))
    ensures MultiRight(b, st, p)
  {
    hide MultiRight, MultiCopy.Shipped, MultiCopy.Uniform, CommandAt, U64At, Sum, MultiLeftover;
    var cmds := Commands(p);
    MultiRightWhen(b, st, p);
    MultiCopy.UniformShips(BufLens(cmds), MultiResultOf(b, st, p).area, p[PayloadEnd(cmds)..],
                           MultiLeftover(b, st.os.tick, p));
  }

  lemma UniformAccepted(b: Backend, st: ServerState, p: seq<Byte>)
    requires MultiFits(p) && MULTI_SIZE + RESPONSE_SIZE * Count(p) as int + Sum(BufLens(Commands(p))) < INT32_LIMIT
    ensures MultiCopy.Uniform(BufLens(Commands(p))) ==> MultiOk(p) && MultiRight(b, st, p)
  {
    hide MultiRight, MultiCopy.Safe, MultiCopy.Uniform, CommandAt, U64At, Sum;
    if MultiCopy.Uniform(BufLens(Commands(p))) {
      MultiCopy.UniformSafe(BufLens(Commands(p)), |p| - DataStart(Count(p)));
      UniformIsRight(b, st, p);
    }
  }

  /**
   * End to end, for any number of commands and payload sizes: ioctl entry i carries wire command i's fields and
   * points at exactly its payload; response words i come back in slot i; the payload bytes the device leaves in
   * slice i are what the client cuts out as payload i of the reply meant. With equal lengths that reply is the one
   * sent.
   */
  lemma MultiRouting(header: seq<Byte>, cmds: seq<SdhciCommand>, payloads: seq<seq<Byte>>, b: Backend, st: ServerState)
    requires |header| == HEADER_SIZE && |cmds| == |payloads| < 0x1_0000_0000_0000_0000
    requires forall i :: 0 <= i < |cmds| ==> |payloads[i]| == cmds[i].bufLen
    requires st.ctx.Some?
    ensures var p := EncodeRequest(header, cmds, payloads);
            && MultiFits(p)
            && var ioc := IocCmds(Mmcs(Commands(p)));
               var io := b.MultiIoctl(st.os.tick, st.ctx.value, ioc, Flatten(payloads));
               var r := MultiResultOf(b, st, p);
               var body := MultiReplyBody(Commands(p), r);
               && |ioc| == |cmds|
               && |body| == 8 + RESPONSE_SIZE * |cmds| + Sum(BufLens(cmds))
               && |io.area| == Sum(BufLens(cmds))
               && (forall i :: 0 <= i < |cmds| ==>
                     && ioc[i] == IocCmd(cmds[i].write, cmds[i].application, cmds[i].command, cmds[i].argument,
                                         Words4(0, 0, 0, 0), cmds[i].flags, cmds[i].blockSize, cmds[i].blocks,
                                         PayloadOffset(cmds, i))
                     && PayloadOffset(cmds, i) + cmds[i].bufLen as int <= |p|
                     && p[PayloadOffset(cmds, i)..PayloadOffset(cmds, i) + cmds[i].bufLen as int] == payloads[i]
                     && SlotAt(body, 8 + RESPONSE_SIZE * i).0 == cmds[i].bufLen
                     && SlotAt(body, 8 + RESPONSE_SIZE * i).1 == io.responses(i)
                     && Sum(BufLens(cmds)[..i]) + cmds[i].bufLen as int <= |io.area|
                     && body[ReplyOffset(cmds, i)..ReplyOffset(cmds, i) + cmds[i].bufLen as int]
                        == io.area[Sum(BufLens(cmds)[..i])..Sum(BufLens(cmds)[..i]) + cmds[i].bufLen as int])
               && (MultiCopy.Uniform(BufLens(cmds)) && HEADER_SIZE + |body| < INT32_LIMIT ==>
                     MultiOk(p) && MultiStep(b, st, p).1.body == body)
  {
    hide LeBytes, U64At, Sum, SlotAt, EncodeResponse, EncodeRequest, CommandAt, MultiReplyBody, Flatten, MultiOk,
         MultiStep;
    var p := EncodeRequest(header, cmds, payloads);
    RequestRoundTrip(header, cmds, payloads);
    RequestParts(header, cmds, payloads);
    assert p[DataStart(|cmds|)..PayloadEnd(cmds)] == Flatten(payloads);
    if HEADER_SIZE + 8 + RESPONSE_SIZE * |cmds| + Sum(BufLens(cmds)) < INT32_LIMIT {
      UniformAccepted(b, st, p);
    }
    MultiReplyRoundTrip(cmds, MultiResultOf(b, st, p));
    forall i | 0 <= i < |cmds|
      ensures PayloadOffset(cmds, i) + cmds[i].bufLen as int <= |p|
      ensures p[PayloadOffset(cmds, i)..PayloadOffset(cmds, i) + cmds[i].bufLen as int] == payloads[i]
    {
      PayloadBounds(cmds, i);
      assert Payload(p, cmds, i) == payloads[i];
    }
  }
}
