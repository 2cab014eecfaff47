/** What a server's replies owe to the byte order of its machine, and exactly when they owe nothing. */
module HostOrder {
  import opened Bytes
  import opened Endian
  import opened Packets
  import opened Devices
  import opened Backend
  import opened Ata
  import opened Server
  import opened WorkerLoop
  import MultiCopy
  import MultiSdhci
  import Sdhci
  import ListDevices

  // The one request field that is read unswapped.

  lemma SameRequest48(p: seq<Byte>)
    requires |p| >= 40
    ensures Request48(Little, p) == Request48(Big, p) <==> p[20] == p[21]
  {
    hide U16At;
    var s := p[20..22];
    FromLe2(s);
    FromLe2(Reverse(s));
    LoadLe16(Little, s);
    LoadLe16(Big, s);
  }

  /** Only the feature of an LBA48 request is read in host order; it does not matter when its two bytes are equal. */
  predicate EvenFeature(f: Frame)
  {
    f.version == PACKET_VERSION && f.ptype == COMMAND_ATA_LBA_48 && |f.payload| >= 6 ==> f.payload[4] == f.payload[5]
  }

  // The reply fields that are written unswapped.

  /** Offsets in the bodies of replies where a word stands in host order. */
  predicate HostOrdered(ptype: Byte, i: nat)
  {
    || (ptype == NOP && 260 <= i < 264)
    || (ptype == RESPONSE_GET_USB_DATA && (1 <= i < 3 || 65539 <= i < 65543))
    || (ptype == RESPONSE_GET_FIREWIRE_DATA && 1 <= i < 17)
    || (ptype == RESPONSE_GET_PCMCIA_DATA && 1 <= i < 3)
    || (ptype == RESPONSE_AM_I_ROOT && i < 4)
  }

  /** Byte for byte the same reply but for the words in host order. */
  predicate Alike(r: Reply, s: Reply)
  {
    && r.ptype == s.ptype && |r.body| == |s.body|
    && forall i :: 0 <= i < |r.body| && !HostOrdered(r.ptype, i) ==> r.body[i] == s.body[i]
  }

  predicate AllAlike(rs: seq<Reply>, ss: seq<Reply>)
  {
    |rs| == |ss| && forall k :: 0 <= k < |rs| ==> Alike(rs[k], ss[k])
  }

  /** The same device and the same kernel, whatever the reused NOP packet holds. */
  predicate SameWorld(st: ServerState, st': ServerState)
  {
    st.ctx == st'.ctx && st.os == st'.os && |st.nopError| == |st'.nopError| == 4
  }

  lemma NopsAlike(reason: Byte, text: string, error: seq<Byte>, error': seq<Byte>)
    requires |error| == |error'| == 4
    ensures Alike(Nop(reason, text, error), Nop(reason, text, error'))
  {
    hide Padded, Ascii;
    var front := [reason, 0, 0, 0] + Padded(Ascii(text), 256);
    assert NopBody(reason, text, error) == front + error && NopBody(reason, text, error') == front + error';
  }

  lemma UsbAlike(d: UsbData)
    ensures Alike(Reply(RESPONSE_GET_USB_DATA, UsbBody(Little, d)), Reply(RESPONSE_GET_USB_DATA, UsbBody(Big, d)))
  {
    hide LeBytes, MisSized, Image;
    UsbParts(Little, d);
    UsbParts(Big, d);
    var s, s' := UsbBody(Little, d), UsbBody(Big, d);
    assert forall i :: 3 <= i < 65539 ==> s[i] == s[3..65539][i - 3] && s'[i] == s'[3..65539][i - 3];
    assert forall i :: 65543 <= i < 66311 ==> s[i] == s[65543..][i - 65543] && s'[i] == s'[65543..][i - 65543];
  }

  lemma FireWireAlike(d: FireWireData)
    ensures Alike(Reply(RESPONSE_GET_FIREWIRE_DATA, FireWireBody(Little, d)),
                  Reply(RESPONSE_GET_FIREWIRE_DATA, FireWireBody(Big, d)))
  {
    hide LeBytes, Image;
    FireWireParts(Little, d);
    FireWireParts(Big, d);
    var s, s' := FireWireBody(Little, d), FireWireBody(Big, d);
    assert forall i :: 17 <= i < 529 ==> s[i] == s[17..][i - 17] && s'[i] == s'[17..][i - 17];
  }

  lemma PcmciaAlike(d: PcmciaData)
    ensures Alike(Reply(RESPONSE_GET_PCMCIA_DATA, PcmciaBody(Little, d)),
                  Reply(RESPONSE_GET_PCMCIA_DATA, PcmciaBody(Big, d)))
  {
    hide LeBytes, MisSized, Image;
    PcmciaParts(Little, d);
    PcmciaParts(Big, d);
    var s, s' := PcmciaBody(Little, d), PcmciaBody(Big, d);
    assert forall i :: 3 <= i < 65539 ==> s[i] == s[3..][i - 3] && s'[i] == s'[3..][i - 3];
  }

  lemma QueryAlike(signed: bool, b: Backend, st: ServerState, st': ServerState, t: Byte)
    requires IsQuery(t) && SameWorld(st, st')
    ensures var r, r' := QueryStep(Host(Little, signed), b, st, t), QueryStep(Host(Big, signed), b, st', t);
            SameWorld(r.0, r'.0) && Alike(r.1, r'.1)
  {
    hide LeBytes, Image, Nop, UsbBody, FireWireBody, PcmciaBody, RegistersBody, ListDevices.ListBody, HostOrdered;
    UsbAlike(b.usb(st.os.tick, st.ctx));
    FireWireAlike(b.fireWire(st.os.tick, st.ctx));
    PcmciaAlike(b.Pcmcia(st.os.tick, st.ctx));
    NopsAlike(REASON_ERROR_LIST_DEVICES, NO_DEVICE_LIST, st.nopError, st'.nopError);
    RootAlike(b.amIRoot(st.os.tick));
  }

  lemma RootAlike(root: Byte)
    ensures Alike(Reply(RESPONSE_AM_I_ROOT, Image(Little, root, 4)), Reply(RESPONSE_AM_I_ROOT, Image(Big, root, 4)))
  {
    hide LeBytes, Image;
  }

  lemma TransferAlike(signed: bool, b: Backend, st: ServerState, st': ServerState, t: Byte, p: seq<Byte>)
    requires IsTransfer(t) && TransferOk(t, p) && SameWorld(st, st')
    requires t == COMMAND_ATA_LBA_48 ==> p[20] == p[21]
    ensures var r, r' := TransferStep(Host(Little, signed), b, st, t, p), TransferStep(Host(Big, signed), b, st', t, p);
            SameWorld(r.0, r'.0) && r.1 == r'.1
  {
    hide LeBytes, U32At, U16At, U64At, SendAta48Spec, SendAta28Spec, Request48, OsReadSpec, ScsiBody, Ata28Body,
         Ata48Body, SdhciBody, MultiSdhci.MultiReplyHead, Sdhci.CommandAt, OsReadOk, MultiOk, MultiResultOf,
         ShippedArea;
    if t == COMMAND_ATA_LBA_48 {
      SameRequest48(p);
    } else if t == MULTI_COMMAND_SDHCI {
      SameMulti(b, st, st', p);
    }
  }

  lemma SameMulti(b: Backend, st: ServerState, st': ServerState, p: seq<Byte>)
    requires MultiOk(p) && SameWorld(st, st')
    ensures MultiResultOf(b, st, p) == MultiResultOf(b, st', p) && ShippedArea(b, st, p) == ShippedArea(b, st', p)
  {
    hide Endian.U64At, Sdhci.CommandAt, MultiSdhci.SendMultiSpec, MultiCopy.Shipped, MultiCopy.Safe, MultiLeftover;
    assert CopySource(b, st, p) == CopySource(b, st', p);
    assert MultiLeftover(b, st.os.tick, p) == MultiLeftover(b, st'.os.tick, p);
  }

  /** One packet, from states that agree on device and kernel. */
  lemma StepAlike(signed: bool, b: Backend, st: ServerState, st': ServerState, f: Frame)
    requires FrameOk(f) && EvenFeature(f) && SameWorld(st, st')
    ensures var o, o' := Step(Host(Little, signed), b, st, f), Step(Host(Big, signed), b, st', f);
            SameWorld(o.state, o'.state) && AllAlike(o.replies, o'.replies)
  {
    hide LeBytes, RawFrame.Encode, QueryStep, TransferStep, LifeCycleStep, Refusal, OpenOk, TransferOk, Alike;
    if f.version == PACKET_VERSION {
      var p, t := f.Encode(), f.ptype;
      if IsQuery(t) {
        QueryAlike(signed, b, st, st', t);
      } else if IsTransfer(t) {
        FeatureAt(f);
        TransferAlike(signed, b, st, st', t, p);
        Identical(TransferStep(Host(Little, signed), b, st, t, p).1);
      } else if IsLifeCycle(t) {
        LifeCycleAlike(signed, b, st, st', t, p);
      } else {
        RefusalAlike(st, st', t);
      }
    }
  }

  lemma Identical(r: Reply)
    ensures Alike(r, r)
  {
  }

  lemma FeatureAt(f: Frame)
    requires FrameOk(f) && EvenFeature(f) && f.version == PACKET_VERSION
    ensures f.ptype == COMMAND_ATA_LBA_48 ==> f.Encode()[20] == f.Encode()[21]
  {
    hide RawFrame.Header, U32At;
    if f.ptype == COMMAND_ATA_LBA_48 {
      var p := f.Encode();
      assert p[20] == p[HEADER_SIZE..][4] && p[21] == p[HEADER_SIZE..][5];
    }
  }

  lemma LifeCycleAlike(signed: bool, b: Backend, st: ServerState, st': ServerState, t: Byte, p: seq<Byte>)
    requires IsLifeCycle(t) && (t == COMMAND_OPEN_DEVICE ==> OpenOk(p)) && SameWorld(st, st')
    ensures var o := LifeCycleStep(Host(Little, signed), b, st, t, p);
            var o' := LifeCycleStep(Host(Big, signed), b, st', t, p);
            SameWorld(o.state, o'.state) && AllAlike(o.replies, o'.replies)
  {
    hide LeBytes, Image, Nop, CString, Opened, ReOpened, Closed, OpenOk, Alike;
    if t == COMMAND_OPEN_DEVICE {
      var r := OpenStep(Host(Little, signed), b, st, p).0;
      var error := Bits32(r.os.errno);
      NopsAlike(if r.ctx.None? then REASON_OPEN_ERROR else REASON_OPEN_OK, "", Image(Little, error, 4),
                Image(Big, error, 4));
    } else if t == COMMAND_REOPEN {
      Identical(ReOpenStep(b, st).1);
    }
  }

  lemma RefusalAlike(st: ServerState, st': ServerState, t: Byte)
    requires SameWorld(st, st')
    ensures Alike(Refusal(st, t), Refusal(st', t))
  {
    hide Nop, NotRecognized, Alike;
    NopsAlike(REASON_OOO, OOO_HELLO, st.nopError, st'.nopError);
    NopsAlike(REASON_OOO, OOO_RESPONSE, st.nopError, st'.nopError);
    NopsAlike(REASON_NOT_RECOGNIZED, NotRecognized(t), st.nopError, st'.nopError);
  }

  predicate EvenFeatures(fs: seq<Frame>)
  {
    forall i :: 0 <= i < |fs| ==> EvenFeature(fs[i])
  }

  /**
   * Whole runs, OPEN and all: both machines end with the same device and the same kernel, and send the same replies
   * but for the bytes of HostOrdered. The only packets to keep out are LBA48 requests with an uneven feature.
   */
  lemma {:induction false} RunAlike(signed: bool, b: Backend, st: ServerState, st': ServerState, fs: seq<Frame>)
    requires FramesOk(fs) && EvenFeatures(fs) && SameWorld(st, st')
    ensures var o, o' := Run(Host(Little, signed), b, st, fs), Run(Host(Big, signed), b, st', fs);
            SameWorld(o.state, o'.state) && AllAlike(o.replies, o'.replies)
  {
    hide Step, FrameOk, EvenFeature, SameWorld, Alike;
    if fs != [] {
      var n := |fs| - 1;
      RunAlike(signed, b, st, st', fs[..n]);
      StepAlike(signed, b, Run(Host(Little, signed), b, st, fs[..n]).state,
                Run(Host(Big, signed), b, st', fs[..n]).state, fs[n]);
    }
  }

  predicate ScriptsEven(scripts: seq<Script>)
  {
    forall i :: 0 <= i < |scripts| ==> EvenFeatures(scripts[i])
  }

  /** The same for all clients of a server's life: what WorkingLoop sends on one machine and on the other. */
  lemma {:induction false} ServeAlike(signed: bool, b: Backend, st: ServerState, scripts: seq<Script>)
    requires ScriptsOk(scripts) && ScriptsEven(scripts) && |st.nopError| == 4
    ensures var s, s' := Serve(Host(Little, signed), b, st, scripts), Serve(Host(Big, signed), b, st, scripts);
            SameWorld(s.0, s'.0) && forall i :: 0 <= i < |scripts| ==> AllAlike(s.1[i], s'.1[i])
  {
    hide Run, FrameOk, EvenFeature, AllAlike;
    if scripts != [] {
      var n := |scripts| - 1;
      ServeAlike(signed, b, st, scripts[..n]);
      var before := Serve(Host(Little, signed), b, st, scripts[..n]).0;
      var before' := Serve(Host(Big, signed), b, st, scripts[..n]).0;
      SessionAlike(signed, b, before, before', scripts[n]);
    }
  }

  lemma SessionAlike(signed: bool, b: Backend, st: ServerState, st': ServerState, fs: seq<Frame>)
    requires FramesOk(fs) && EvenFeatures(fs) && SameWorld(st, st')
    ensures var o, o' := Session(Host(Little, signed), b, st, fs), Session(Host(Big, signed), b, st', fs);
            SameWorld(o.state, o'.state) && AllAlike(o.replies, o'.replies)
  {
    hide Run, FrameOk, EvenFeature;
    if fs != [] {
      RunAlike(signed, b, st, st', fs[1..]);
    }
  }

  // Exactly when the words in host order agree.

  /** A word that reads the same from both ends. */
  predicate Mirrored(x: nat, width: nat)
  {
    LeBytes(x, width) == Reverse(LeBytes(x, width))
  }

  lemma ImagesAgree(x: nat, width: nat)
    ensures Image(Little, x, width) == Image(Big, x, width) <==> Mirrored(x, width)
  {
    hide LeBytes;
  }

  lemma Mirrored16(x: U16)
    ensures Mirrored(x, 2) <==> x / 0x100 == x % 0x100
  {
    hide LeBytes, FromLe;
    BSwapReverses16(x);
    Pow256Values();
    FromLeBytes(x, 2);
    FromLeBytes(BSwap16(x), 2);
  }

  lemma Mirrored32(x: U32)
    ensures Mirrored(x, 4) <==> BSwap32(x) == x
  {
    hide LeBytes, FromLe, BSwap32;
    BSwapReverses32(x);
    Pow256Values();
    FromLeBytes(x, 4);
    FromLeBytes(BSwap32(x), 4);
  }

  lemma Mirrored64(x: U64)
    ensures Mirrored(x, 8) <==> BSwap64(x) == x
  {
    hide LeBytes, FromLe, BSwap64;
    BSwapReverses64(x);
    Pow256Values();
    FromLeBytes(x, 8);
    FromLeBytes(BSwap64(x), 8);
  }

  /** A byte in a 32-bit word, an errno for one, is its own swap only when it is 0. */
  lemma SmallMirrored(x: Byte)
    ensures Mirrored(x, 4) <==> x == 0
  {
    hide LeBytes;
    Mirrored32(x);
    assert BSwap32(x) == x as int * 0x100_0000;
  }

  /** am_i_root: only "no" reads the same. */
  lemma AmIRootAgrees(b: Backend, st: ServerState, signed: bool)
    ensures AmIRootStep(Host(Little, signed), b, st) == AmIRootStep(Host(Big, signed), b, st)
            <==> b.amIRoot(st.os.tick) == 0
  {
    hide Image, Mirrored;
    var x := b.amIRoot(st.os.tick);
    SmallMirrored(x);
    ImagesAgree(x, 4);
    assert AmIRootStep(Host(Little, signed), b, st).1.body == Image(Little, x, 4);
    assert AmIRootStep(Host(Big, signed), b, st).1.body == Image(Big, x, 4);
  }

  /**
   * error_no after OPEN reads the same on both machines in one case only: the device opened, and the open that opened
   * it left errno 0, nothing before it having left it otherwise. Every failure to open tells them apart.
   */
  lemma OpenAgrees(b: Backend, st: ServerState, p: seq<Byte>, signed: bool)
    requires OpenOk(p)
    ensures var path := CString(p[16..]);
            var resolved, before := OpenPath(b.kernel, st.os, path), AfterRealPath(b.kernel, st.os, path);
            var e := b.kernel.openError(before.tick, resolved, true);
            OpenStep(Host(Little, signed), b, st, p) == OpenStep(Host(Big, signed), b, st, p) <==>
              || (e == 0 && b.kernel.errnoAfter(before.tick, before.errno) == 0)
              || (e in {EACCES, EROFS} && b.kernel.openError(before.tick + 1, resolved, false) == 0
                  && b.kernel.errnoAfter(before.tick + 1, e) == 0)
  {
    hide LeBytes, CString, Opened, OpenPath, AfterRealPath, Image, Mirrored;
    var path := CString(p[16..]);
    var errno := Opened(b.kernel, st.os, path).0.errno;
    OpenLeavesNoErrno(b.kernel, st.os, path);
    assert Bits32(errno) == errno;
    ImagesAgree(errno, 4);
    SmallMirrored(errno);
  }

  // Lengths through a swap that is too wide.

  lemma LowHalf(len: U16)
    ensures BSwap32(len) == (len as int % 0x100 * 0x100 + len as int / 0x100) * 0x1_0000
  {
    var n := len as int;
    assert n / 0x1_0000 == 0 && n / 0x100_0000 == 0;
    assert n / 0x100 % 0x100 == n / 0x100;
  }

  lemma NoLowHalf(n: nat)
    ensures n * 0x1_0000 % 0x1_0000 == 0
  {
  }

  /** htole32 of a 16-bit length: right on a little-endian machine, always 0 on a big-endian one. */
  lemma MisSizedLoses(len: U16)
    ensures MisSized(Little, len) == len
    ensures MisSized(Big, len) == 0
  {
    hide BSwap32;
    LowHalf(len);
    NoLowHalf(len as int % 0x100 * 0x100 + len as int / 0x100);
  }

  lemma MisSizedImages(len: U16)
    ensures Image(Little, MisSized(Little, len), 2) == Image(Big, MisSized(Big, len), 2) <==> len == 0
  {
    hide BSwap32, LeBytes, FromLe;
    MisSizedLoses(len);
    Pow256Values();
    FromLeBytes(len, 2);
    FromLeBytes(0, 2);
    Mirrored16(0);
  }

  lemma UsbAgrees(d: UsbData)
    ensures UsbBody(Little, d) == UsbBody(Big, d) <==>
              && d.descLen == 0
              && d.idVendor / 0x100 == d.idVendor % 0x100 && d.idProduct / 0x100 == d.idProduct % 0x100
  {
    hide LeBytes, MisSized, Image, Mirrored;
    MisSizedImages(d.descLen);
    ImagesAgree(d.idVendor, 2);
    ImagesAgree(d.idProduct, 2);
    Mirrored16(d.idVendor);
    Mirrored16(d.idProduct);
    UsbParts(Little, d);
    UsbParts(Big, d);
  }

  lemma UsbParts(order: ByteOrder, d: UsbData)
    ensures var s := UsbBody(order, d);
            && s[0] == d.isUsb
            && s[1..3] == Image(order, MisSized(order, d.descLen), 2)
            && s[3..65539] == d.descriptors
            && s[65539..65541] == Image(order, d.idVendor, 2)
            && s[65541..65543] == Image(order, d.idProduct, 2)
            && s[65543..] == d.manufacturer + d.product + d.serial
  {
    hide LeBytes, MisSized, Image;
  }

  lemma PcmciaAgrees(d: PcmciaData)
    ensures PcmciaBody(Little, d) == PcmciaBody(Big, d) <==> d.cisLen == 0
  {
    hide LeBytes, MisSized, Image;
    MisSizedImages(d.cisLen);
    PcmciaParts(Little, d);
    PcmciaParts(Big, d);
  }

  lemma PcmciaParts(order: ByteOrder, d: PcmciaData)
    ensures var s := PcmciaBody(order, d);
            s[0] == d.isPcmcia && s[1..3] == Image(order, MisSized(order, d.cisLen), 2) && s[3..] == d.cis
  {
    hide LeBytes, MisSized, Image;
  }

  lemma FireWireAgrees(d: FireWireData)
    ensures FireWireBody(Little, d) == FireWireBody(Big, d) <==>
              BSwap32(d.idModel) == d.idModel && BSwap32(d.idVendor) == d.idVendor && BSwap64(d.guid) == d.guid
  {
    hide LeBytes, Image, Mirrored, BSwap32, BSwap64;
    ImagesAgree(d.idModel, 4);
    ImagesAgree(d.idVendor, 4);
    ImagesAgree(d.guid, 8);
    Mirrored32(d.idModel);
    Mirrored32(d.idVendor);
    Mirrored64(d.guid);
    FireWireParts(Little, d);
    FireWireParts(Big, d);
  }

  lemma FireWireParts(order: ByteOrder, d: FireWireData)
    ensures var s := FireWireBody(order, d);
            && s[0] == d.isFireWire
            && s[1..5] == Image(order, d.idModel, 4) && s[5..9] == Image(order, d.idVendor, 4)
            && s[9..17] == Image(order, d.guid, 8) && s[17..] == d.vendor + d.model
  {
    hide LeBytes, Image;
  }
}
