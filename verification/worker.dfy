/**
 * worker.c: WorkingLoop. The machine: a header peeked into pkt_hdr, handlers that consume the packet from the
 * socket or leave it for the next iteration (skip_next_hdr), buffers malloc'd and freed by hand, one NOP packet
 * rewritten in place. Every handler is proved against its Server step and gives back all it allocated.
 */
module WorkerLoop {
  import opened Bytes
  import opened Layout
  import opened Endian
  import opened Packets
  import opened Network
  import opened Devices
  import opened Backend
  import opened Ata
  import opened Sdhci
  import opened MultiSdhci
  import opened Server
  import opened SensePointer
  import opened Streams
  import opened Replies
  import opened Buffers
  import MultiCopy
  import ListDevices

  /** A client as accept presents it: the bytes it will send, and how recv will cut them. */
  datatype Client = Client(stream: seq<Byte>, schedule: Schedule)

  /** The packets of one client, as the server takes its stream. */
  type Script = seq<Frame>

  ghost predicate Plays(c: Client, s: Script)
  {
    FramesOk(s) && Sends(c.stream, s) && WholePeeks(c.schedule)
  }

  predicate ScriptsOk(scripts: seq<Script>)
  {
    forall i :: 0 <= i < |scripts| ==> FramesOk(scripts[i])
  }

  /** The simple server over its whole life: one session per client, the state carried from each to the next. */
  function Serve(h: Host, b: Backend, st: ServerState, scripts: seq<Script>): (r: (ServerState, seq<seq<Reply>>))
    requires ScriptsOk(scripts)
    ensures |r.1| == |scripts|
  {
    if scripts == [] then (st, [])
    else
      var before := Serve(h, b, st, scripts[..|scripts| - 1]);
      var last := Session(h, b, before.0, scripts[|scripts| - 1]);
      (last.state, before.1 + [last.replies])
  }

  /** Every SCSI packet of every client that is heard meets an open device. */
  predicate ScsiServed(h: Host, b: Backend, st: ServerState, scripts: seq<Script>)
    requires ScriptsOk(scripts)
  {
    forall i :: 0 <= i < |scripts| ==>
      ScsiHasDevice(h, b, Serve(h, b, st, scripts[..i]).0, Heard(scripts[i]))
  }

  /** The sense pointer over all clients. */
  function SenseServed(h: Host, b: Backend, st: ServerState, p: Pointer, scripts: seq<Script>): Option<Pointer>
    requires ScriptsOk(scripts)
  {
    if scripts == [] then Some(p)
    else
      var init, last := scripts[..|scripts| - 1], scripts[|scripts| - 1];
      match SenseServed(h, b, st, p, init)
      case None => None
      case Some(q) => SenseRun(h, b, Serve(h, b, st, init).0, q, Heard(last))
  }

  ghost function BytesOf(a: array?<Byte>): seq<Byte>
    reads a
  {
    if a == null then [] else a[..]
  }

  ghost function BlockOf(a: array?<Byte>): set<object>
  {
    if a == null then {} else {a}
  }

  const HELLO_TEXTS: seq<nat> := [16, 144, 212, 468, 724]

  /** `text` stands at `off` and ends there with a NUL inside the packet. */
  predicate StringIn(p: seq<Byte>, off: nat, text: seq<Byte>)
  {
    off + |text| < |p| && p[off..off + |text|] == text && p[off + |text|] == 0 && 0 !in text
  }

  lemma {:induction false} StringEnds(b: seq<Byte>)
    requires 0 in b
    ensures StringIn(b, 0, CString(b))
  {
    if b[0] != 0 {
      var s := CString(b[1..]);
      StringEnds(b[1..]);
      assert b[1..][..|s|] == s && b[0..1 + |s|] == [b[0]] + b[1..][0..|s|];
    }
  }

  /** A C string inside a received packet: it must end there. */
  function StringAt(p: seq<Byte>, off: nat): (s: seq<Byte>)
    requires off <= |p| && 0 in p[off..]
    ensures s == CString(p[off..]) && StringIn(p, off, s)
  {
    StringEnds(p[off..]);
    assert p[off..off + |CString(p[off..])|] == p[off..][0..|CString(p[off..])|];
    CString(p[off..])
  }

  lemma LaterNul(p: seq<Byte>, off: nat, later: nat)
    requires off <= later <= |p| && 0 in p[later..]
    ensures 0 in p[off..]
  {
    assert p[later..] == p[off..][later - off..];
  }

  class Worker {
    const host: Host
    const backend: Backend
    const nop: array<Byte>
    var hdr: array?<Byte>
    var cli: NetworkContext?
    var ctx: DeviceContext?
    var os: Os
    /** sense_buf: null stands for not initialised; between two SCSI packets it points to a block already freed. */
    var senseBuf: array?<Byte>
    /** The blocks WorkingLoop has allocated and not yet freed, the hello aside. */
    ghost var live: set<object>

    /** worker.c:87 and 129-144: no device yet, and the one NOP packet zeroed and given its header. */
    constructor (host: Host, backend: Backend, os: Os)
      ensures this.host == host && this.backend == backend && fresh(nop)
      ensures Idle() && Sense() == Unset && State() == ServerState(None, os, Zeros(4))
    {
      this.host, this.backend, this.os := host, backend, os;
      nop := new Byte[NOP_SIZE](_ => 0);
      hdr, cli, ctx, senseBuf := null, null, null, null;
      new;
      hide LeBytes, HeaderBytes;
      live := {nop};
      assert nop[..] == Zeros(NOP_SIZE);
      ghost var g := StoreHeader(host.order, nop, NOP_SIZE, NOP);
      FreshNop(nop[..], g);
    }

    /** pkt_nop as it is between two uses: header and spare bytes never change. */
    ghost predicate NopOk()
      reads nop
    {
      && nop.Length == NOP_SIZE
      && nop[..16] == HeaderBytes(NOP_SIZE, PACKET_VERSION, NOP, 0, 0) && nop[17..20] == [0, 0, 0]
    }

    ghost predicate Valid()
      reads this, nop, cli
    {
      && NopOk()
      && hdr != null && hdr != nop && hdr.Length == HEADER_SIZE
      && cli != null && cli.Valid()
    }

    ghost function Sense(): Pointer
      reads this
    {
      if senseBuf == null then Unset else if senseBuf in live then Allocated else Freed
    }

    /** The head of the command loop: besides the hello only pkt_nop and pkt_hdr are allocated. */
    ghost predicate AtHead()
      reads this, nop, cli
    {
      Valid() && live == {nop, hdr} && Sense() != Allocated
    }

    ghost function State(): ServerState
      requires NopOk()
      reads this, nop, ctx
    {
      ServerState(ValueOf(ctx), os, nop[276..280])
    }

    method Now() returns (st: ServerState)
      requires NopOk()
      ensures st == State()
    {
      st := ServerState(if ctx == null then None else Some(Ctx(ctx.fd, ctx.path)), os, nop[276..280]);
    }

    /** pkt_hdr holds the header of f. */
    ghost predicate Announced(f: Frame)
      reads this, nop, cli, hdr
    {
      Valid() && hdr[..] == f.Header()
    }

    /** How many bytes a receive of f takes here. */
    ghost function Rest(f: Frame): nat
      requires cli != null && cli.Valid()
      reads this, cli
    {
      Taken(cli.Available(), f)
    }

    /** The packet is the next one, as far as its handler will look. */
    ghost predicate Waiting(f: Frame)
      reads this, nop, cli, hdr
    {
      AtHead() && Announced(f) && Shows(cli.Available(), f)
    }

    /** The same with all of it there. */
    ghost predicate Ready(f: Frame)
      reads this, nop, cli, hdr
    {
      AtHead() && Announced(f) && f.Encode() <= cli.Available()
    }

    /** Everything but the device, the kernel and the output is as before; `consumed` bytes were taken. */
    twostate predicate Kept(consumed: nat)
      reads this, nop, cli, hdr
    {
      && AtHead() && hdr == old(hdr) && cli == old(cli) && hdr[..] == old(hdr[..])
      && old(cli != null) && cli.cursor == old(cli.cursor) + consumed
      && (ctx == null || ctx == old(ctx) || fresh(ctx))
    }

    /** A handler's effect: the step's state, the packet consumed or not, the one reply written. */
    twostate predicate Answered(consumed: nat, r: (ServerState, Reply))
      reads this, nop, cli, hdr, ctx
    {
      && Kept(consumed)
      && State() == r.0
      && Canonicals(cli.sent) == old(Canonicals(cli.sent)) + [r.1.Encode()]
    }

    /** A reply built: the step's state, and its packet in a block of its own. */
    twostate predicate Built(new out: array<Byte>, r: (ServerState, Reply))
      reads this, nop, ctx, out
    {
      && fresh(out) && live == old(live) + {out}
      && NopOk() && State() == r.0 && Canonical(out[..]) == r.1.Encode()
    }

    /** The same for a whole step, which may have no reply. */
    twostate predicate Handled(consumed: nat, o: Outcome)
      reads this, nop, cli, hdr, ctx
    {
      && Kept(consumed)
      && State() == o.state
      && Canonicals(cli.sent) == old(Canonicals(cli.sent)) + Encodings(o.replies)
    }

    method Malloc(size: nat) returns (a: array<Byte>)
      modifies this`live
      ensures fresh(a) && a.Length == size && live == old(live) + {a}
    {
      a := new Byte[size];
      live := live + {a};
    }

    /** The same where the old contents of the block reach the client: the backend says what they are. */
    method MallocLeftover(tick: nat, size: nat) returns (a: array<Byte>)
      modifies this`live
      ensures fresh(a) && a.Length == size && live == old(live) + {a}
      ensures a[..] == backend.Leftover(tick, size)
    {
      var left := backend.Leftover(tick, size);
      a := new Byte[size](i requires 0 <= i < size => left[i]);
      live := live + {a};
    }

    method Free(ghost block: object)
      requires block in live
      modifies this`live
      ensures live == old(live) - {block}
    {
      live := live - {block};
    }

    method FreeIfSet(block: array?<Byte>)
      requires BlockOf(block) <= live
      modifies this`live
      ensures live == old(live) - BlockOf(block)
    {
      if block != null {
        Free(block);
      }
    }

    /** malloc and memcpy of a part of the request, or NULL when it is empty. */
    method CopyPart(p: seq<Byte>, off: nat, len: nat) returns (a: array?<Byte>)
      requires off + len <= |p|
      modifies this`live
      ensures BytesOf(a) == p[off..off + len]
      ensures a != null ==> fresh(a)
      ensures live == old(live) + BlockOf(a)
    {
      a := null;
      if len > 0 {
        a := Malloc(len);
        forall i | 0 <= i < len {
          a[i] := p[off + i];
        }
      }
    }

    /** The opening lines of every handler: a block of hdr.len bytes, and in it what the stream still has. */
    method Receive(ghost f: Frame) returns (inBuf: array<Byte>, got: nat)
      requires Announced(f)
      modifies this`live, cli
      ensures fresh(inBuf) && inBuf.Length == f.Len() && live == old(live) + {inBuf}
      ensures got == old(Rest(f)) && inBuf[..got] == old(cli.Available()[..got])
      ensures old(f.Encode() <= cli.Available()) ==> inBuf[..] == f.Encode()
      ensures cli.Valid() && cli.cursor == old(cli.cursor) + got && cli.sent == old(cli.sent)
    {
      hide LeBytes, HeaderBytes, U32At, Load32, RawFrame.Header;
      HeaderLen(f);
      var len := Load32(host.order, hdr[..], 8);
      inBuf := Malloc(len);
      ghost var available := cli.Available();
      assert cli.Received(len, false) == available[..Rest(f)];
      got := NetRecv(cli, inBuf, len, false);
      if f.Encode() <= available {
        WholeTaken(available, f);
        assert inBuf[..] == inBuf[..got];
      }
    }

    /** Header-only requests and skipped packets: received and thrown away. */
    method Discard(ghost f: Frame)
      requires Announced(f)
      modifies this`live, cli
      ensures Valid() && live == old(live) && cli.cursor == old(cli.cursor) + old(Rest(f)) && cli.sent == old(cli.sent)
    {
      var inBuf, got := Receive(f);
      Free(inBuf);
    }

    method Send(out: array<Byte>)
      requires cli != null && cli.Valid()
      modifies cli`sent
      ensures cli.Valid()
      ensures Canonicals(cli.sent) == old(Canonicals(cli.sent)) + [Canonical(out[..])]
    {
      CanonicalsSnoc(cli.sent, out[..]);
      cli.Write(out);
    }

    /** The closing lines of a handler: the reply written, request and reply freed. */
    method Finish(inBuf: array<Byte>, out: array<Byte>, ghost reply: Reply)
      requires senseBuf == null || (senseBuf != nop && senseBuf != hdr)
      requires Valid() && live == {nop, hdr} + {inBuf, out}
      requires inBuf != nop && inBuf != hdr && out != nop && out != hdr && inBuf != out
      requires Canonical(out[..]) == reply.Encode()
      modifies this`live, cli`sent
      ensures AtHead()
      ensures Canonicals(cli.sent) == old(Canonicals(cli.sent)) + [reply.Encode()]
    {
      Send(out);
      Free(inBuf);
      Free(out);
    }

    /** The same for a request already freed. */
    method FinishReply(out: array<Byte>, ghost reply: Reply)
      requires senseBuf == null || (senseBuf != nop && senseBuf != hdr)
      requires Valid() && live == {nop, hdr} + {out} && out != nop && out != hdr
      requires Canonical(out[..]) == reply.Encode()
      modifies this`live, cli`sent
      ensures AtHead()
      ensures Canonicals(cli.sent) == old(Canonicals(cli.sent)) + [reply.Encode()]
    {
      Send(out);
      Free(out);
    }

    /** pkt_nop rewritten in place: reason code, 256 bytes cleared, the text copied in; error_no stays. */
    method SendNop(reason: Byte, text: string)
      requires Valid()
      modifies nop, cli`sent
      ensures Valid() && nop[276..280] == old(nop[276..280])
      ensures Canonicals(cli.sent) == old(Canonicals(cli.sent)) + [Nop(reason, text, old(nop[276..280])).Encode()]
    {
      hide HeaderBytes, LeBytes;
      FillNop(reason, text);
      ghost var e := Nop(reason, text, nop[276..280]).Encode();
      assert nop[..] == e;
      Send(nop);
      NopCanonical(reason, text, nop[276..280]);
    }

    /** memset and strncpy into `reason`. */
    method FillText(text: string)
      requires nop.Length == NOP_SIZE
      modifies nop
      ensures forall i :: 0 <= i < 256 ==> nop[20 + i] == Padded(Ascii(text), 256)[i]
      ensures forall i :: 0 <= i < 20 || 276 <= i < NOP_SIZE ==> nop[i] == old(nop[i])
    {
      forall i | 20 <= i < 276 {
        nop[i] := 0;
      }
      forall i | 0 <= i < Min(|text|, 256) {
        nop[20 + i] := text[i] as int % 0x100;
      }
    }

    method FillNop(reason: Byte, text: string)
      requires NopOk()
      modifies nop
      ensures NopOk() && nop[276..280] == old(nop[276..280])
      ensures nop[..] == Nop(reason, text, old(nop[276..280])).Encode()
    {
      hide HeaderBytes, LeBytes, Padded;
      ghost var before := nop[..];
      nop[16] := reason;
      FillText(text);
      assert nop[..16] == before[..16] && nop[17..20] == before[17..20] && nop[276..280] == before[276..280];
      NopFilled(nop[..], reason, text, before[276..280]);
    }

    /** `pkt_nop->error_no = word`, whatever the word. */
    method SetNopError(word: U32)
      requires NopOk()
      modifies nop
      ensures NopOk() && nop[276..280] == Image(host.order, word, 4)
    {
      hide HeaderBytes, LeBytes, Image;
      var s := Image(host.order, word, 4);
      nop[276], nop[277], nop[278], nop[279] := s[0], s[1], s[2], s[3];
    }

    // The handlers, worker.c:305-1314.

    /** worker.c:405-409: the old context is dropped without being closed. */
    method OpenDevice(p: seq<Byte>) returns (reason: Byte)
      requires NopOk() && OpenOk(p)
      modifies this`ctx, this`os, nop
      ensures NopOk() && (ctx != null ==> fresh(ctx))
      ensures var r := old(OpenStep(host, backend, State(), p));
              State() == r.0 && r.1 == Nop(reason, "", State().nopError)
    {
      hide Image, LeBytes, HeaderBytes, CString, Opened, Nop;
      os, ctx := DeviceOpen(backend.kernel, os, StringAt(p, 16));
      SetNopError(Bits32(os.errno));
      reason := if ctx == null then REASON_OPEN_ERROR else REASON_OPEN_OK;
    }

    /** worker.c:392-414. */
    method Open(ghost f: Frame)
      requires Ready(f) && OpenOk(f.Encode())
      modifies this`live, this`ctx, this`os, nop, cli
      ensures Answered(f.Len(), old(OpenStep(host, backend, State(), f.Encode())))
    {
      hide LeBytes, HeaderBytes, OpenStep, Nop;
      var inBuf, got := Receive(f);
      var reason := OpenDevice(inBuf[..]);
      SendNop(reason, "");
      Free(inBuf);
    }

    /** worker.c:1209-1225. */
    method ReopenDevice() returns (reason: Byte)
      requires NopOk()
      modifies this`os, ctx, nop
      ensures NopOk()
      ensures var r := old(ReOpenStep(backend, State()));
              State() == r.0 && r.1 == Nop(reason, "", State().nopError)
    {
      hide Image, LeBytes, HeaderBytes, ReOpened, Nop;
      var ret, sense;
      os, ret, sense := ReOpen(backend.kernel, os, ctx);
      if ret != 0 {
        StoreLe32Image(host.order, Bits32(ret));
        SetNopError(HToLe32(host.order, Bits32(ret)));
        reason := if sense != 0 then REASON_CLOSE_ERROR else REASON_OPEN_ERROR;
      } else {
        ZeroImage(host.order);
        SetNopError(0);
        reason := REASON_REOPEN_OK;
      }
    }

    /** worker.c:1196-1231. */
    method Reopen(ghost f: Frame)
      requires Waiting(f)
      modifies this`live, this`os, ctx, nop, cli
      ensures Answered(old(Rest(f)), old(ReOpenStep(backend, State())))
    {
      hide LeBytes, HeaderBytes, ReOpenStep, Nop;
      var inBuf, got := Receive(f);
      var reason := ReopenDevice();
      SendNop(reason, "");
      Free(inBuf);
    }

    /** worker.c:1048-1052; the packet itself is left for the next iteration. */
    method Close()
      requires AtHead()
      modifies this`ctx, this`os
      ensures Kept(0) && State() == old(State().(os := Closed(backend.kernel, State().os, State().ctx), ctx := None))
      ensures Canonicals(cli.sent) == old(Canonicals(cli.sent))
    {
      os := DeviceClose(backend.kernel, os, ctx);
      ctx := null;
    }

    method List(ghost f: Frame)
      requires Waiting(f)
      modifies this`live, this`os, nop, cli
      ensures Answered(old(Rest(f)), old(ListStep(backend, State())))
    {
      hide ListDevices.ListBody, LeBytes, HeaderBytes, Nop, Canonical, Canonicals, RawFrame.Header, PeekedHeader, Shows;
      var devices := backend.listDevices(os.tick);
      os := backend.Tick(os);
      var list := ListDevices.MakeList(devices);
      live := live + ListDevices.NodesOf(list);
      Discard(f);
      if list == null {
        SendNop(REASON_ERROR_LIST_DEVICES, NO_DEVICE_LIST);
        return;
      }
      SendList(list, list.nodes);
    }

    /** worker.c:342-366: a first block just for the count, freed for the real one. */
    method MakeListReply(list: ListDevices.Node) returns (out: array<Byte>)
      requires list.Valid() && |list.list| < 0x1_0000
      modifies this`live
      ensures fresh(out) && live == old(live) + {out}
      ensures Canonical(out[..]) == Reply(RESPONSE_LIST_DEVICES, ListDevices.ListBody(list.list)).Encode()
    {
      hide ListDevices.ListBody, HeaderBytes, LeBytes, Canonical;
      var small := Malloc(18);
      var count := ListDevices.DeviceInfoListCount(list);
      Free(small);
      out := Malloc(18 + count * DEVICE_INFO_SIZE);
      BuildList(host.order, out, list);
    }

    method SendList(list: ListDevices.Node, ghost more: set<object>)
      requires senseBuf == null || (senseBuf != nop && senseBuf != hdr)
      requires Valid() && list.Valid() && |list.list| < 0x1_0000
      requires more == list.nodes && live == {nop, hdr} + more && nop !in more && hdr !in more
      modifies this`live, cli`sent
      ensures AtHead()
      ensures Canonicals(cli.sent) == old(Canonicals(cli.sent))
                                      + [Reply(RESPONSE_LIST_DEVICES, ListDevices.ListBody(list.list)).Encode()]
    {
      hide ListDevices.ListBody, HeaderBytes, LeBytes, Canonical, Canonicals;
      var out := MakeListReply(list);
      live := ListDevices.FreeDeviceInfoList(list, live);
      Send(out);
      Free(out);
    }

    method DeviceTypeReply() returns (out: array<Byte>)
      requires NopOk()
      modifies this`live, this`os
      ensures Built(out, old(DevTypeStep(backend, State())))
    {
      hide LeBytes, HeaderBytes, Canonical;
      var r := backend.deviceType(os.tick, ValueOf(ctx));
      os := backend.Tick(os);
      out := Malloc(20);
      BuildDevType(host.order, out, r);
    }

    /** worker.c:415-451. */
    method DeviceType(ghost f: Frame)
      requires Waiting(f)
      modifies this`live, this`os, cli
      ensures Answered(old(Rest(f)), old(DevTypeStep(backend, State())))
    {
      hide LeBytes, HeaderBytes, Canonical, Canonicals, DevTypeStep;
      ghost var r := DevTypeStep(backend, State());
      Discard(f);
      var out := DeviceTypeReply();
      FinishReply(out, r.1);
    }

    method UsbQueryReply() returns (out: array<Byte>)
      requires NopOk()
      modifies this`live, this`os
      ensures Built(out, old(UsbStep(host, backend, State())))
    {
      hide LeBytes, HeaderBytes, Canonical;
      var r := backend.usb(os.tick, ValueOf(ctx));
      os := backend.Tick(os);
      out := Malloc(66327);
      BuildUsb(host.order, out, r);
    }

    /** worker.c:621-666. */
    method UsbQuery(ghost f: Frame)
      requires Waiting(f)
      modifies this`live, this`os, cli
      ensures Answered(old(Rest(f)), old(UsbStep(host, backend, State())))
    {
      hide LeBytes, HeaderBytes, Canonical, Canonicals, UsbStep;
      ghost var r := UsbStep(host, backend, State());
      Discard(f);
      var out := UsbQueryReply();
      FinishReply(out, r.1);
    }

    method FireWireQueryReply() returns (out: array<Byte>)
      requires NopOk()
      modifies this`live, this`os
      ensures Built(out, old(FireWireStep(host, backend, State())))
    {
      hide LeBytes, HeaderBytes, Canonical;
      var r := backend.fireWire(os.tick, ValueOf(ctx));
      os := backend.Tick(os);
      out := Malloc(545);
      BuildFireWire(host.order, out, r);
    }

    /** worker.c:667-708. */
    method FireWireQuery(ghost f: Frame)
      requires Waiting(f)
      modifies this`live, this`os, cli
      ensures Answered(old(Rest(f)), old(FireWireStep(host, backend, State())))
    {
      hide LeBytes, HeaderBytes, Canonical, Canonicals, FireWireStep;
      ghost var r := FireWireStep(host, backend, State());
      Discard(f);
      var out := FireWireQueryReply();
      FinishReply(out, r.1);
    }

    method PcmciaQueryReply() returns (out: array<Byte>)
      requires NopOk()
      modifies this`live, this`os
      ensures Built(out, old(PcmciaStep(host, backend, State())))
    {
      hide LeBytes, HeaderBytes, Canonical;
      var r := backend.Pcmcia(os.tick, ValueOf(ctx));
      os := WithStreams(backend.kernel, backend.Tick(os), r.streams);
      out := Malloc(65555);
      BuildPcmcia(host.order, out, r);
    }

    /** worker.c:709-746. */
    method PcmciaQuery(ghost f: Frame)
      requires Waiting(f)
      modifies this`live, this`os, cli
      ensures Answered(old(Rest(f)), old(PcmciaStep(host, backend, State())))
    {
      hide LeBytes, HeaderBytes, Canonical, Canonicals, PcmciaStep;
      ghost var r := PcmciaStep(host, backend, State());
      Discard(f);
      var out := PcmciaQueryReply();
      FinishReply(out, r.1);
    }

    method AmIRootReply() returns (out: array<Byte>)
      requires NopOk()
      modifies this`live, this`os
      ensures Built(out, old(AmIRootStep(host, backend, State())))
    {
      hide LeBytes, HeaderBytes, Canonical;
      var r := backend.amIRoot(os.tick);
      os := backend.Tick(os);
      out := Malloc(20);
      BuildAmIRoot(host.order, out, r);
    }

    /** worker.c:1053-1087. */
    method AmIRoot(ghost f: Frame)
      requires Waiting(f)
      modifies this`live, this`os, cli
      ensures Answered(old(Rest(f)), old(AmIRootStep(host, backend, State())))
    {
      hide LeBytes, HeaderBytes, Canonical, Canonicals, AmIRootStep;
      ghost var r := AmIRootStep(host, backend, State());
      Discard(f);
      var out := AmIRootReply();
      FinishReply(out, r.1);
    }

    /** The blocks GetSdhciRegisters hands over, NULL for a register the card does not have. */
    method TakeRegisters(r: Registers)
      returns (csd: array?<Byte>, cid: array?<Byte>, ocr: array?<Byte>, scr: array?<Byte>, ghost taken: set<object>)
      modifies this`live
      ensures taken == BlockOf(csd) + BlockOf(cid) + BlockOf(ocr) + BlockOf(scr)
      ensures BlockOf(csd) !! BlockOf(cid) !! BlockOf(ocr) !! BlockOf(scr)
      ensures fresh(taken) && live == old(live) + taken
    {
      csd := CopyPart(r.csd, 0, |r.csd|);
      cid := CopyPart(r.cid, 0, |r.cid|);
      ocr := CopyPart(r.ocr, 0, |r.ocr|);
      scr := CopyPart(r.scr, 0, |r.scr|);
      taken := BlockOf(csd) + BlockOf(cid) + BlockOf(ocr) + BlockOf(scr);
    }

    /** worker.c:613-616. */
    method FreeRegisters(csd: array?<Byte>, cid: array?<Byte>, ocr: array?<Byte>, scr: array?<Byte>)
      requires BlockOf(csd) !! BlockOf(cid) !! BlockOf(ocr) !! BlockOf(scr)
      requires BlockOf(csd) + BlockOf(cid) + BlockOf(ocr) + BlockOf(scr) <= live
      modifies this`live
      ensures live == old(live) - (BlockOf(csd) + BlockOf(cid) + BlockOf(ocr) + BlockOf(scr))
    {
      FreeIfSet(csd);
      FreeIfSet(cid);
      FreeIfSet(scr);
      FreeIfSet(ocr);
    }

    method SdhciRegistersReply() returns (out: array<Byte>)
      requires NopOk()
      modifies this`live, this`os
      ensures Built(out, old(RegistersStep(backend, State())))
    {
      hide LeBytes, HeaderBytes, Canonical, RegistersBody;
      out := Malloc(77);
      var r := backend.registers(os.tick, ValueOf(ctx));
      os := backend.Tick(os);
      var csd, cid, ocr, scr, taken := TakeRegisters(r);
      BuildRegisters(host.order, out, r);
      FreeRegisters(csd, cid, ocr, scr);
    }

    /** worker.c:542-620. */
    method SdhciRegisters(ghost f: Frame)
      requires Waiting(f)
      modifies this`live, this`os, cli
      ensures Answered(old(Rest(f)), old(RegistersStep(backend, State())))
    {
      hide LeBytes, HeaderBytes, Canonical, Canonicals, RegistersStep;
      ghost var r := RegistersStep(backend, State());
      Discard(f);
      var out := SdhciRegistersReply();
      FinishReply(out, r.1);
    }

    /** linux/scsi.c:24-80. Without a device only the return value and sense_len are set. */
    method SendScsiCommand(args: ScsiArgs) returns (r: ScsiResult, senseLen: U32)
      modifies this`live, this`os, this`senseBuf
      ensures ctx == null ==> unchanged(this) && r.ret == -1 && senseLen == SENSE_SIZE
      ensures ctx != null ==>
                && r == backend.Scsi(old(os).tick, ValueOf(ctx), args) && senseLen == |r.senseData|
                && os == backend.Tick(old(os))
                && senseBuf != null && fresh(senseBuf) && live == old(live) + {senseBuf}
                && senseLen <= senseBuf.Length && senseBuf[..senseLen] == r.senseData
    {
      hide Backend.SgIoctl;
      senseLen := SENSE_SIZE;
      if ctx == null {
        r := ScsiResult(-1, [], [], 0, 0);
        return;
      }
      senseBuf := Malloc(senseLen);
      var cmdLen: nat := |args.cdb| % 0x100;
      var io := SgIo(cmdLen, args.cdb[..cmdLen], SgDirectionOf(args.direction), args.buffer, args.timeout);
      r := backend.SgIoctl(os.tick, ValueOf(ctx), io);
      os := backend.Tick(os);
      senseLen := |r.senseData|;
      forall i | 0 <= i < senseLen {
        senseBuf[i] := r.senseData[i];
      }
    }

    /** worker.c:466-501: CDB and data copied out of the request, the command sent. */
    method SendScsi(p: seq<Byte>) returns (r: ScsiResult, senseLen: U32)
      requires ScsiOk(p) && ctx != null
      modifies this`live, this`os, this`senseBuf
      ensures r == backend.Scsi(old(os).tick, ValueOf(ctx), ScsiRequest(p)) && senseLen == |r.senseData|
      ensures os == backend.Tick(old(os))
      ensures senseBuf != null && fresh(senseBuf) && live == old(live) + {senseBuf}
      ensures senseLen <= senseBuf.Length && senseBuf[..senseLen] == r.senseData
    {
      hide U32At, Load32, Backend.Scsi;
      var cdbLen := Load32(host.order, p, 16);
      var bufLen := Load32(host.order, p, 20);
      var cdb := CopyPart(p, 32, cdbLen);
      var buffer := CopyPart(p, 32 + cdbLen as int, bufLen);
      var args := ScsiArgs(Read(cdb), Read(buffer), Load32(host.order, p, 28), Load32(host.order, p, 24));
      r, senseLen := SendScsiCommand(args);
      FreeIfSet(cdb);
      FreeIfSet(buffer);
    }

    function Read(a: array?<Byte>): (s: seq<Byte>)
      reads a
      ensures s == BytesOf(a)
    {
      if a == null then [] else a[..]
    }

    /** The memcpy of worker.c:518 reads the block sense_buf points to, which must be one. */
    method ReadSense(len: nat) returns (s: seq<Byte>)
      requires senseBuf != null && senseBuf in live && len <= senseBuf.Length
      ensures s == senseBuf[..len]
    {
      s := senseBuf[..len];
    }

    method ScsiReply(p: seq<Byte>) returns (out: array<Byte>)
      requires NopOk() && ScsiOk(p) && ctx != null
      modifies this`live, this`os, this`senseBuf
      ensures Built(out, old(ScsiStep(backend, State(), p)))
      ensures senseBuf != null && fresh(senseBuf) && senseBuf != out
    {
      hide LeBytes, HeaderBytes, Canonical, ScsiBody, ScsiRequest, Backend.Scsi;
      ScsiSizes(p);
      var r, senseLen := SendScsi(p);
      out := Malloc(36 + senseLen as int + |r.buffer|);
      var senseData := ReadSense(senseLen);
      BuildScsi(host.order, out, r.(senseData := senseData));
      FreeIfSet(senseBuf);
    }

    /** worker.c:452-541. */
    method Scsi(ghost f: Frame)
      requires Ready(f) && ScsiOk(f.Encode()) && ctx != null
      modifies this`live, this`os, this`senseBuf, cli
      ensures Answered(f.Len(), old(ScsiStep(backend, State(), f.Encode())))
      ensures senseBuf != null
    {
      hide LeBytes, HeaderBytes, Canonical, Canonicals, ScsiStep;
      ghost var r := ScsiStep(backend, State(), f.Encode());
      var inBuf, got := Receive(f);
      var out := ScsiReply(inBuf[..]);
      Finish(inBuf, out, r.1);
    }

    method Ata28Reply(p: seq<Byte>, lba: bool) returns (out: array<Byte>)
      requires NopOk() && Ata28Ok(p)
      modifies this`live, this`os
      ensures Built(out, old(Ata28Step(backend, State(), p, lba)))
    {
      hide LeBytes, HeaderBytes, Canonical, Ata28Body, SendAta28Spec, U32At, Load32, HToLe32;
      var bufLen := Load32(host.order, p, 16);
      var r := SendAta28(backend, os, ctx, Request28(p), lba, Transfer(p[27], p[28], p[29]), p[35..35 + bufLen as int],
                         Load32(host.order, p, 31));
      os := r.os;
      HToLe32Twice(host.order, |r.buffer|);
      out := Malloc(39 + |r.buffer|);
      BuildAta28(host.order, out, lba, r, HToLe32(host.order, |r.buffer|));
    }

    /** The CHS and LBA28 arms, worker.c:747-891. */
    method Ata28(ghost f: Frame, lba: bool)
      requires Ready(f) && Ata28Ok(f.Encode())
      modifies this`live, this`os, cli
      ensures Answered(f.Len(), old(Ata28Step(backend, State(), f.Encode(), lba)))
    {
      hide LeBytes, HeaderBytes, Canonical, Canonicals, Ata28Step;
      ghost var r := Ata28Step(backend, State(), f.Encode(), lba);
      var inBuf, got := Receive(f);
      var out := Ata28Reply(inBuf[..], lba);
      Finish(inBuf, out, r.1);
    }

    /** worker.c:918: sector_count goes through le16toh, feature is taken as it lies in memory. */
    function LoadRequest48(p: seq<Byte>): (r: Registers48)
      requires |p| >= 40
      ensures r == Request48(host.order, p)
    {
      LoadLe16(host.order, p[20..22]);
      Registers48(Word(host.order, p[20..22]), Load16(host.order, p, 22), p[24], p[25], p[26], p[27], p[28], p[29],
                  p[30], p[31])
    }

    method Ata48Reply(p: seq<Byte>) returns (out: array<Byte>)
      requires NopOk() && Ata48Ok(p)
      modifies this`live, this`os
      ensures Built(out, old(Ata48Step(host, backend, State(), p)))
    {
      hide LeBytes, HeaderBytes, Canonical, Ata48Body, SendAta48Spec, U32At, Load32, HToLe32, Request48;
      var bufLen := Load32(host.order, p, 16);
      var r := SendAta48(backend, host.charSigned, os, ctx, LoadRequest48(p), Transfer(p[32], p[33], p[34]),
                         p[40..40 + bufLen as int], Load32(host.order, p, 36));
      os := r.os;
      HToLe32Twice(host.order, |r.buffer|);
      LeToHIsHToLe(host.order, HToLe32(host.order, |r.buffer|));
      out := Malloc(43 + |r.buffer|);
      BuildAta48(host.order, out, r, HToLe32(host.order, |r.buffer|));
    }

    /** worker.c:892-969. */
    method Ata48(ghost f: Frame)
      requires Ready(f) && Ata48Ok(f.Encode())
      modifies this`live, this`os, cli
      ensures Answered(f.Len(), old(Ata48Step(host, backend, State(), f.Encode())))
    {
      hide LeBytes, HeaderBytes, Canonical, Canonicals, Ata48Step;
      ghost var r := Ata48Step(host, backend, State(), f.Encode());
      var inBuf, got := Receive(f);
      var out := Ata48Reply(inBuf[..]);
      Finish(inBuf, out, r.1);
    }

    function LoadCommand(p: seq<Byte>): (c: SdhciCommand)
      requires |p| >= 43
      ensures c == CommandAt(p, 16)
    {
      SdhciCommand(p[16], p[17], p[18], Load32(host.order, p, 19), Load32(host.order, p, 23),
                   Load32(host.order, p, 27), Load32(host.order, p, 31), Load32(host.order, p, 35),
                   Load32(host.order, p, 39))
    }

    method SdhciReply(p: seq<Byte>) returns (out: array<Byte>)
      requires NopOk() && SdhciOk(p)
      modifies this`live, this`os
      ensures Built(out, old(SdhciStep(backend, State(), p)))
    {
      hide LeBytes, HeaderBytes, Canonical, SdhciBody, U32At, Load32, Backend.Sdhci;
      var c := LoadCommand(p);
      var r := backend.Sdhci(os.tick, ValueOf(ctx), c, p[43..43 + c.bufLen as int]);
      os := backend.Tick(os);
      out := Malloc(48 + c.bufLen as int);
      BuildSdhci(host.order, out, r);
    }

    /** worker.c:970-1047. */
    method SdhciOne(ghost f: Frame)
      requires Ready(f) && SdhciOk(f.Encode())
      modifies this`live, this`os, cli
      ensures Answered(f.Len(), old(SdhciStep(backend, State(), f.Encode())))
    {
      hide LeBytes, HeaderBytes, Canonical, Canonicals, SdhciStep;
      ghost var r := SdhciStep(backend, State(), f.Encode());
      var inBuf, got := Receive(f);
      var out := SdhciReply(inBuf[..]);
      Finish(inBuf, out, r.1);
    }

    /** worker.c:1103-1141: commands decoded, sent, and the data area as the device leaves it put back. */
    method SendMultiRequest(p: seq<Byte>, commands: array<Mmc>, ghost cmds: seq<SdhciCommand>)
      returns (ret: int, duration: U32, sense: U32, mem: seq<Byte>, ghost r: MultiResult)
      requires MultiFits(p) && cmds == Commands(p) && commands.Length == |cmds|
      modifies commands, this`os
      ensures r == SendMultiSpec(backend, old(os), ValueOf(ctx), Mmcs(cmds), p[DataStart(|cmds|)..PayloadEnd(cmds)])
      ensures (os, ret, duration, sense) == (r.os, r.ret, r.duration, r.sense)
      ensures |mem| == |p| && mem[DataStart(|cmds|)..PayloadEnd(cmds)] == r.area
      ensures mem[PayloadEnd(cmds)..] == p[PayloadEnd(cmds)..]
      ensures forall i :: 0 <= i < |cmds| ==>
                && commands[i].bufLen == cmds[i].bufLen && commands[i].buffer == PayloadOffset(cmds, i)
                && commands[i].response == r.responses[i]
    {
      hide PayloadOffset, Sum, CommandAt, U64At, Sdhci.Commands, SendMultiSpec;
      DecodeMulti(host.order, p, commands);
      EndAfterStart(cmds);
      var from := DataStart(commands.Length);
      var to := DataEnd(commands, cmds);
      var area, area' := p[from..to], [];
      r := SendMultiSpec(backend, os, ValueOf(ctx), Mmcs(cmds), area);
      os, ret, duration, sense, area' := SendMulti(backend, os, ctx, commands, area);
      mem := p[..from] + area' + p[to..];
    }

    method MultiReply(p: seq<Byte>) returns (out: array<Byte>)
      requires NopOk() && MultiOk(p)
      modifies this`live, this`os
      ensures Built(out, old(MultiStep(backend, State(), p)))
    {
      hide LeBytes, HeaderBytes, Canonical, U64At, Load64, CommandAt, PayloadOffset, Sum, MultiReplyHead,
           SendMultiSpec, Mmcs, MultiCopy.Safe, MultiCopy.Shipped, Backend.Leftover;
      ghost var cmds := Commands(p);
      var commands := new Mmc[Load64(host.order, p, 16)](_ => ZERO_MMC);
      live := live + {commands};
      var tick := os.tick;
      var ret, duration, sense, mem, r := SendMultiRequest(p, commands, cmds);
      var size := ReplySize(commands, cmds);
      out := MallocLeftover(tick, size);
      CopyReads(backend, old(State()), p, mem);
      hide MultiLeftover, CopySource;
      BuildMulti(host.order, out, mem, commands, cmds, r, duration, sense, ret);
      Free(commands);
    }

    /** worker.c:1088-1195. */
    method Multi(ghost f: Frame)
      requires Ready(f) && MultiOk(f.Encode())
      modifies this`live, this`os, cli
      ensures Answered(f.Len(), old(MultiStep(backend, State(), f.Encode())))
    {
      hide LeBytes, HeaderBytes, Canonical, Canonicals, MultiStep;
      ghost var r := MultiStep(backend, State(), f.Encode());
      var inBuf, got := Receive(f);
      var out := MultiReply(inBuf[..]);
      Finish(inBuf, out, r.1);
    }

    method ReadDeviceReply(p: seq<Byte>) returns (out: array<Byte>)
      requires NopOk() && OsReadOk(p)
      modifies this`live, this`os
      ensures Built(out, old(OsReadStep(backend, State(), p)))
    {
      hide LeBytes, HeaderBytes, Canonical, U32At, Load32, U64At, Load64, OsReadSpec;
      var length := Load32(host.order, p, 24);
      var buffer := Malloc(length);
      forall i | 0 <= i < length {
        buffer[i] := 0;
      }
      assert buffer[..] == Zeros(length);
      var ret;
      os, ret := OsRead(backend.kernel, os, ctx, buffer, Load64(host.order, p, 16), length);
      out := Malloc(24 + length as int);
      BuildOsRead(host.order, out, ret, buffer[..]);
      Free(buffer);
    }

    /** worker.c:1232-1295. */
    method ReadDevice(ghost f: Frame)
      requires Ready(f) && OsReadOk(f.Encode())
      modifies this`live, this`os, cli
      ensures Answered(f.Len(), old(OsReadStep(backend, State(), f.Encode())))
    {
      hide LeBytes, HeaderBytes, Canonical, Canonicals, OsReadStep;
      ghost var r := OsReadStep(backend, State(), f.Encode());
      var inBuf, got := Receive(f);
      var out := ReadDeviceReply(inBuf[..]);
      Finish(inBuf, out, r.1);
    }

    /** The requests that move data. */
    method DispatchTransfer(ghost f: Frame)
      requires Ready(f) && IsTransfer(f.ptype) && TransferOk(f.ptype, f.Encode())
      requires f.ptype == COMMAND_SCSI ==> ctx != null
      modifies this`live, this`os, this`senseBuf, cli
      ensures Answered(f.Len(), old(TransferStep(host, backend, State(), f.ptype, f.Encode())))
      ensures f.ptype != COMMAND_SCSI ==> senseBuf == old(senseBuf)
      ensures f.ptype == COMMAND_SCSI ==> senseBuf != null
    {
      hide LeBytes, HeaderBytes, RawFrame.Encode, ScsiStep, Ata28Step, Ata48Step, SdhciStep, MultiStep, OsReadStep,
           ScsiOk, Ata28Ok, Ata48Ok, SdhciOk, MultiOk, OsReadOk, Canonicals;
      HeaderOf(f);
      var t := hdr[13];
      hide Worker.Kept, Worker.Ready;
      if t == COMMAND_SCSI {
        Scsi(f);
      } else if t == COMMAND_ATA_CHS {
        Ata28(f, false);
      } else if t == COMMAND_ATA_LBA_28 {
        Ata28(f, true);
      } else if t == COMMAND_ATA_LBA_48 {
        Ata48(f);
      } else if t == COMMAND_SDHCI {
        SdhciOne(f);
      } else if t == MULTI_COMMAND_SDHCI {
        Multi(f);
      } else {
        ReadDevice(f);
      }
    }

    /** The device's own life cycle. */
    method DispatchDevice(ghost f: Frame) returns (skip: bool)
      requires Waiting(f) && IsLifeCycle(f.ptype)
      requires f.ptype == COMMAND_OPEN_DEVICE ==> Ready(f) && OpenOk(f.Encode())
      modifies this`live, this`ctx, this`os, nop, cli, ctx
      ensures Handled(if skip then 0 else old(Rest(f)), old(LifeCycleStep(host, backend, State(), f.ptype, f.Encode())))
      ensures skip == (f.ptype == COMMAND_CLOSE_DEVICE)
    {
      hide LeBytes, HeaderBytes, RawFrame.Encode, OpenStep, ReOpenStep, OpenOk, Closed, Canonicals;
      skip := false;
      HeaderOf(f);
      var t := hdr[13];
      Single();
      if t == COMMAND_OPEN_DEVICE {
        Open(f);
      } else if t == COMMAND_CLOSE_DEVICE {
        Close();
        skip := true;
      } else {
        Reopen(f);
      }
    }

    /** The questions. */
    method DispatchQuery(ghost f: Frame)
      requires Waiting(f) && IsQuery(f.ptype)
      modifies this`live, this`os, nop, cli
      ensures Answered(old(Rest(f)), old(QueryStep(host, backend, State(), f.ptype)))
    {
      hide LeBytes, HeaderBytes, RawFrame.Encode, ListStep, DevTypeStep, RegistersStep, UsbStep, FireWireStep,
           PcmciaStep, AmIRootStep, Canonicals;
      HeaderOf(f);
      var t := hdr[13];
      hide Worker.Kept, Worker.Ready;
      if t == COMMAND_LIST_DEVICES {
        List(f);
      } else if t == COMMAND_GET_DEVTYPE {
        DeviceType(f);
      } else if t == COMMAND_GET_SDHCI_REGISTERS {
        SdhciRegisters(f);
      } else if t == COMMAND_GET_USB_DATA {
        UsbQuery(f);
      } else if t == COMMAND_GET_FIREWIRE_DATA {
        FireWireQuery(f);
      } else if t == COMMAND_GET_PCMCIA_DATA {
        PcmciaQuery(f);
      } else {
        AmIRoot(f);
      }
    }

    /** The arms that only send pkt_nop. */
    method Refuse(t: Byte)
      requires AtHead()
      modifies nop, cli`sent
      ensures Answered(0, old((State(), Refusal(State(), t))))
    {
      hide LeBytes, HeaderBytes, Nop, NotRecognized, Canonicals;
      if t == HELLO {
        SendNop(REASON_OOO, OOO_HELLO);
      } else if IsKnownResponse(t) {
        SendNop(REASON_OOO, OOO_RESPONSE);
      } else {
        SendNop(REASON_NOT_RECOGNIZED, NotRecognized(t));
      }
    }

    /** worker.c:298-1314: version test and dispatch; the result is the new skip_next_hdr. */
    method Dispatch(ghost f: Frame) returns (skip: bool)
      requires Waiting(f) && FrameOk(f) && (IsScsi(f) ==> ctx != null)
      modifies this`live, this`ctx, this`os, this`senseBuf, nop, cli, ctx
      ensures Handled(if skip then 0 else old(Rest(f)), old(Step(host, backend, State(), f)))
      ensures skip == Skips(f.version, f.ptype)
      ensures Sense() == if IsScsi(f) then Freed else old(Sense())
    {
      hide LeBytes, HeaderBytes, RawFrame.Encode, QueryStep, TransferStep, LifeCycleStep, Refusal, OpenOk, TransferOk,
           Canonicals, PeekedHeader;
      HeaderOf(f);
      var version, t := hdr[12], hdr[13];
      Single();
      if version != PACKET_VERSION {
        return true;
      }
      if IsQuery(t) {
        DispatchQuery(f);
        skip := false;
      } else if IsTransfer(t) {
        DispatchTransfer(f);
        skip := false;
      } else if IsLifeCycle(t) {
        skip := DispatchDevice(f);
      } else {
        Refuse(t);
        skip := true;
      }
    }

    /** Between two clients: pkt_nop is the only block left. */
    ghost predicate Idle()
      reads this, nop
    {
      NopOk() && live == {nop} && Sense() != Allocated
    }

    /** The peeked header: empty at the end of the stream, else what PeekedHeader says. */
    method PeekHeader() returns (got: nat)
      requires Valid() && WholePeeks(cli.schedule)
      modifies cli, hdr
      ensures Valid() && cli.cursor == old(cli.cursor) && cli.sent == old(cli.sent)
      ensures got == 0 <==> cli.Available() == []
      ensures got > 0 ==> hdr[..] == PeekedHeader(cli.Available())
    {
      hide Repeated, Peeked;
      PeekShows(cli.Available(), cli.schedule, cli.calls);
      got := NetRecv(cli, hdr, HEADER_SIZE, true);
    }

    /** worker.c:289-290, the host's words against the swapped constants. */
    function MagicSeen(s: seq<Byte>): (ok: bool)
      requires |s| == HEADER_SIZE
      ensures ok == MagicOk(s)
    {
      SameWords(host.order, s);
      Word(host.order, s[0..4]) == HToLe32(host.order, REMOTE_ID)
      && Word(host.order, s[4..8]) == HToLe32(host.order, PACKET_ID)
    }

    /**
     * The invariant of the command loop after `k` of a client's packets `fs`, which begin at stream position
     * `from`: at every peek the cursor stands behind the packets handled or, while skip_next_hdr is set, before
     * the last of them; state, output and sense pointer are those of the folds so far.
     */
    ghost predicate InLoop(fs: seq<Frame>, from: nat, st: ServerState, p: Pointer, sent: seq<seq<Byte>>, k: nat,
                           skip: bool)
      requires FramesOk(fs)
      reads this, nop, cli, hdr, ctx
    {
      && AtHead() && WholePeeks(cli.schedule)
      && from <= |cli.incoming| && Delivers(cli.incoming[from..], fs)
      && k <= |fs| && (skip ==> k > 0 && hdr[..] == fs[k - 1].Header())
      && cli.cursor == from + Stand(|cli.incoming| - from, fs, if skip then k - 1 else k)
      && State() == Run(host, backend, st, fs[..k]).state
      && Some(Sense()) == SenseRun(host, backend, st, p, fs[..k])
      && Canonicals(cli.sent) == sent + Encodings(Run(host, backend, st, fs[..k]).replies)
    }

    /** The top of an iteration: a pending packet is consumed, once, before the next header is peeked. */
    method NextHeader(ghost fs: seq<Frame>, ghost from: nat, ghost st: ServerState, ghost p: Pointer,
                      ghost sent: seq<seq<Byte>>, ghost k: nat, skip: bool)
      returns (more: bool)
      requires FramesOk(fs) && InLoop(fs, from, st, p, sent, k, skip)
      modifies this`live, cli, hdr
      ensures InLoop(fs, from, st, p, sent, k, false)
      ensures cli.cursor == old(cli.cursor) + if skip then old(Rest(fs[k - 1])) else 0
      ensures skip ==> cli.cursor > old(cli.cursor)
      ensures more <==> k < |fs|
      ensures more ==> Waiting(fs[k])
    {
      hide LeBytes, HeaderBytes, RawFrame.Encode, RawFrame.Header, FrameOk, Canonicals, Run, SenseRun, PeekedHeader,
           MagicOk, Encodings, Delivers, Stand;
      ghost var s := cli.incoming[from..];
      if skip {
        CursorAt(cli.incoming, from, fs, k - 1);
        Discard(fs[k - 1]);
      }
      CursorAt(cli.incoming, from, fs, k);
      var got := PeekHeader();
      if got == 0 || !MagicSeen(hdr[..]) {
        return false;
      }
      return true;
    }

    /** The rest of an iteration: the packet is dispatched, and consumed or left pending. */
    method HandleNext(ghost fs: seq<Frame>, ghost from: nat, ghost st: ServerState, ghost p: Pointer,
                      ghost sent: seq<seq<Byte>>, ghost k: nat)
      returns (skip: bool)
      requires FramesOk(fs) && InLoop(fs, from, st, p, sent, k, false) && k < |fs| && Waiting(fs[k])
      requires ScsiHasDevice(host, backend, st, fs)
      modifies this`live, this`ctx, this`os, this`senseBuf, nop, cli, ctx
      ensures InLoop(fs, from, st, p, sent, k + 1, skip)
      ensures cli.cursor == old(cli.cursor) + if skip then 0 else old(Rest(fs[k]))
      ensures !skip ==> cli.cursor > old(cli.cursor)
      ensures ctx == null || ctx == old(ctx) || fresh(ctx)
    {
      hide LeBytes, HeaderBytes, RawFrame.Encode, RawFrame.Header, Step, FrameOk, Canonicals, Run, SenseRun, Delivers,
           PeekedHeader, Stand;
      CursorAt(cli.incoming, from, fs, k);
      RunNext(host, backend, st, fs, k);
      SenseNext(host, backend, st, p, fs, k);
      skip := Dispatch(fs[k]);
    }

    /**
     * worker.c:252-315. The lazily skipping loop is the fold of Step over the client's packets, and it ends:
     * each iteration consumes bytes or sets skip_next_hdr.
     */
    method CommandLoop(ghost fs: seq<Frame>)
      requires AtHead() && WholePeeks(cli.schedule)
      requires FramesOk(fs) && Delivers(cli.Available(), fs)
      requires ScsiHasDevice(host, backend, State(), fs)
      modifies this`live, this`ctx, this`os, this`senseBuf, nop, cli, hdr, ctx
      ensures Idle() && cli == old(cli) && cli != null
      ensures ctx == null || ctx == old(ctx) || fresh(ctx)
      ensures var o := Run(host, backend, old(State()), fs);
              State() == o.state && Canonicals(cli.sent) == old(Canonicals(cli.sent)) + Encodings(o.replies)
      ensures Some(Sense()) == SenseRun(host, backend, old(State()), old(Sense()), fs)
    {
      hide LeBytes, HeaderBytes, RawFrame.Encode, RawFrame.Header, Step, FrameOk, Canonicals, Run, SenseRun, Delivers,
           ScsiHasDevice;
      var skip := false;
      ghost var k: nat, from, st, p, sent := 0, cli.cursor, State(), Sense(), Canonicals(cli.sent);
      RunStart(host, backend, st, fs);
      SenseStart(host, backend, st, p, fs);
      while true
        invariant InLoop(fs, from, st, p, sent, k, skip)
        invariant cli == old(cli) && hdr == old(hdr) && (ctx == null || ctx == old(ctx) || fresh(ctx))
        decreases |cli.incoming| - cli.cursor, if skip then 0 else 1
      {
        var more := NextHeader(fs, from, st, p, sent, k, skip);
        if !more {
          break;
        }
        skip := HandleNext(fs, from, st, p, sent, k);
        k := k + 1;
      }
      assert fs[..k] == fs;
      Free(hdr);
    }

    /** worker.c:241-252: the client's hello, all there, is printed and freed, and the commands begin. */
    method Hear(ghost fs: seq<Frame>, clientHello: array<Byte>)
      requires Valid() && WholePeeks(cli.schedule) && live == {nop, hdr} + {clientHello} && Sense() != Allocated
      requires clientHello != nop && clientHello != hdr && HelloOk(clientHello[..])
      requires FramesOk(fs) && Delivers(cli.Available(), fs) && ScsiHasDevice(host, backend, State(), fs)
      modifies this`live, this`ctx, this`os, this`senseBuf, nop, cli, hdr, ctx
      ensures Idle() && cli == old(cli) && cli != null
      ensures ctx == null || ctx == old(ctx) || fresh(ctx)
      ensures var o := Run(host, backend, old(State()), fs);
              State() == o.state && Canonicals(cli.sent) == old(Canonicals(cli.sent)) + Encodings(o.replies)
      ensures Some(Sense()) == SenseRun(host, backend, old(State()), old(Sense()), fs)
    {
      hide LeBytes, HeaderBytes, RawFrame.Encode, RawFrame.Header, FrameOk, Canonicals, Run, SenseRun, HelloOk,
           ScsiHasDevice, Delivers;
      var printed := HelloStrings(clientHello[..]);
      Free(clientHello);
      CommandLoop(fs);
    }

    /** worker.c:220-239: the hello is received; when the stream breaks off inside it the client is dropped. */
    method TakeHello(ghost fs: seq<Frame>, ghost f: Frame)
      requires AtHead() && WholePeeks(cli.schedule) && Announced(f) && IsHello(f) && FramesOk(fs)
      requires if fs == [] then |cli.Available()| < f.Len()
               else f == fs[0] && f.Encode() <= cli.Available() && HelloOk(f.Encode())
                    && Delivers(cli.Available()[f.Len()..], fs[1..])
      requires ScsiHasDevice(host, backend, State(), Heard(fs))
      modifies this`live, this`ctx, this`os, this`senseBuf, nop, cli, hdr, ctx
      ensures Idle() && cli == old(cli) && cli != null
      ensures ctx == null || ctx == old(ctx) || fresh(ctx)
      ensures var o := Session(host, backend, old(State()), fs);
              State() == o.state && Canonicals(cli.sent) == old(Canonicals(cli.sent)) + Encodings(o.replies)
      ensures Some(Sense()) == SenseRun(host, backend, old(State()), old(Sense()), Heard(fs))
    {
      hide LeBytes, HeaderBytes, RawFrame.Encode, RawFrame.Header, FrameOk, Canonicals, Run, SenseRun, HelloOk,
           ScsiHasDevice, Delivers, U32At, Load32;
      Single();
      HeaderLen(f);
      ghost var available := cli.Available();
      var len := Load32(host.order, hdr[..], 8);
      var clientHello, got := Receive(f);
      if got != len {
        SenseStart(host, backend, State(), Sense(), fs);
        Free(hdr);
        Free(clientHello);
        return;
      }
      assert cli.Available() == available[f.Len()..];
      Hear(fs[1..], clientHello);
    }

    /** worker.c:178-239 and 252: what a client gets to see after the server's hello. */
    method Greet(ghost fs: seq<Frame>)
      requires AtHead() && WholePeeks(cli.schedule)
      requires FramesOk(fs) && Sends(cli.Available(), fs)
      requires ScsiHasDevice(host, backend, State(), Heard(fs))
      modifies this`live, this`ctx, this`os, this`senseBuf, nop, cli, hdr, ctx
      ensures Idle() && cli == old(cli) && cli != null
      ensures ctx == null || ctx == old(ctx) || fresh(ctx)
      ensures var o := Session(host, backend, old(State()), fs);
              State() == o.state && Canonicals(cli.sent) == old(Canonicals(cli.sent)) + Encodings(o.replies)
      ensures Some(Sense()) == SenseRun(host, backend, old(State()), old(Sense()), Heard(fs))
    {
      hide LeBytes, HeaderBytes, RawFrame.Encode, RawFrame.Header, FrameOk, Canonicals, Run, SenseRun, HelloOk,
           ScsiHasDevice, PeekedHeader, Delivers;
      Single();
      ghost var f := FirstSent(cli.Available(), fs);
      SenseStart(host, backend, State(), Sense(), fs);
      var recvSize := PeekHeader();
      if recvSize == 0 || !MagicSeen(hdr[..]) {
        Free(hdr);
        return;
      }
      if hdr[12] != PACKET_VERSION || hdr[13] != HELLO {
        Free(hdr);
        return;
      }
      TakeHello(fs, f);
    }

    /** worker.c:241-245: application, version, sysname, release and machine, each up to its NUL inside the packet. */
    method HelloStrings(p: seq<Byte>) returns (texts: seq<seq<Byte>>)
      requires HelloOk(p)
      ensures |texts| == 5
      ensures forall i :: 0 <= i < 5 ==> StringIn(p, HELLO_TEXTS[i], texts[i])
    {
      hide CString, StringIn;
      LaterNul(p, 16, 724);
      LaterNul(p, 144, 724);
      LaterNul(p, 212, 724);
      LaterNul(p, 468, 724);
      texts := [StringAt(p, 16), StringAt(p, 144), StringAt(p, 212), StringAt(p, 468), StringAt(p, 724)];
    }

    /**
     * worker.c:146-1316: clients one after another until accept fails. For every sequence of clients, whatever
     * chunks recv cuts their bytes into, client i receives the server's hello and then the replies of the simple
     * server, whose state runs on from client to client; nothing but pkt_nop stays allocated between them.
     */
    method WorkingLoop(hello: array<Byte>, clients: seq<Client>, ghost scripts: seq<Script>)
      returns (transcripts: seq<seq<seq<Byte>>>)
      requires Idle() && hello != nop && |scripts| == |clients| && ScriptsOk(scripts)
      requires forall i :: 0 <= i < |clients| ==> Plays(clients[i], scripts[i])
      requires ScsiServed(host, backend, State(), scripts)
      modifies this, nop, ctx
      ensures Idle() && |transcripts| == |clients|
      ensures var served := Serve(host, backend, old(State()), scripts);
              && State() == served.0
              && forall i :: 0 <= i < |clients| ==>
                   Canonicals(transcripts[i]) == [Canonical(hello[..])] + Encodings(served.1[i])
      ensures Some(Sense()) == SenseServed(host, backend, old(State()), old(Sense()), scripts)
    {
      hide LeBytes, HeaderBytes, Canonical, Canonicals, Encodings, Session, FrameOk, Serve, ScsiHasDevice, Run,
           Heard, Sends, WholePeeks, NopOk, SenseRun, SenseServed;
      ServeNone(host, backend, State(), Sense());
      transcripts := [];
      ghost var st, p := State(), Sense();
      assert scripts[..0] == [];
      for i := 0 to |clients|
        invariant Idle() && (ctx == null || ctx == old(ctx) || fresh(ctx))
        invariant |transcripts| == i && State() == Serve(host, backend, st, scripts[..i]).0
        invariant Some(Sense()) == SenseServed(host, backend, st, p, scripts[..i])
        invariant forall j :: 0 <= j < i ==>
                    Canonicals(transcripts[j])
                    == [Canonical(hello[..])] + Encodings(Serve(host, backend, st, scripts[..i]).1[j])
      {
        ServeNext(host, backend, st, p, scripts, i);
        var packets := ServeClient(hello, clients[i], scripts[i]);
        transcripts := transcripts + [packets];
      }
      assert scripts[..|clients|] == scripts;
    }

    /** One turn of the accept loop. */
    method ServeClient(hello: array<Byte>, client: Client, ghost script: Script) returns (packets: seq<seq<Byte>>)
      requires Idle() && hello != nop && Plays(client, script)
      requires ScsiHasDevice(host, backend, State(), Heard(script))
      modifies this, nop, ctx
      ensures Idle() && (ctx == null || ctx == old(ctx) || fresh(ctx))
      ensures var o := Session(host, backend, old(State()), script);
              State() == o.state && Canonicals(packets) == [Canonical(hello[..])] + Encodings(o.replies)
      ensures Some(Sense()) == SenseRun(host, backend, old(State()), old(Sense()), Heard(script))
    {
      hide LeBytes, HeaderBytes, Canonical, Canonicals, Encodings, Session, FrameOk, ScsiHasDevice, Run, Heard, Sends,
           WholePeeks, SenseRun, NopOk;
      cli := new NetworkContext(client.stream, client.schedule);
      cli.Write(hello);
      assert cli.sent == [hello[..]];
      OnePacket(hello[..]);
      assert cli.Available() == client.stream;
      hdr := Malloc(HEADER_SIZE);
      Greet(script);
      packets := cli.sent;
    }
  }

  lemma SameWords(order: ByteOrder, s: seq<Byte>)
    requires |s| == HEADER_SIZE
    ensures (Word(order, s[0..4]) == HToLe32(order, REMOTE_ID) && Word(order, s[4..8]) == HToLe32(order, PACKET_ID))
            <==> MagicOk(s)
  {
    hide LeBytes, Word, FromLe;
    SameWord(order, s[0..4], REMOTE_ID);
    SameWord(order, s[4..8], PACKET_ID);
    assert s[..8] == s[0..4] + s[4..8];
    assert MagicOk(s) ==> s[0..4] == Magic()[..4] && s[4..8] == Magic()[4..];
  }

  lemma SameWord(order: ByteOrder, s: seq<Byte>, x: U32)
    requires |s| == 4
    ensures Word(order, s) == HToLe32(order, x) <==> s == LeBytes(x, 4)
  {
    hide LeBytes, FromLe;
    Pow256Values();
    LoadLe32(order, s);
    LeBytesFromLe(s);
    FromLeBytes(x, 4);
    BSwapInvolution32(x);
    BSwapInvolution32(Word(order, s));
  }

  /** Where the cursor stands behind k packets, and what it sees there. */
  lemma CursorAt(incoming: seq<Byte>, from: nat, fs: seq<Frame>, k: nat)
    requires from <= |incoming| && Delivers(incoming[from..], fs) && k <= |fs|
    ensures var at := from + Stand(|incoming| - from, fs, k);
            && at <= |incoming|
            && (k == |fs| ==> EndsHere(incoming[at..]))
            && (k < |fs| ==>
                  && Shows(incoming[at..], fs[k]) && MagicOk(PeekedHeader(incoming[at..]))
                  && from + Stand(|incoming| - from, fs, k + 1) == at + Taken(incoming[at..], fs[k]))
  {
    hide RawFrame.Encode, RawFrame.Header, MagicOk, PeekedHeader, EndsHere, Stand;
    var at := Stand(|incoming| - from, fs, k);
    DeliversAt(incoming[from..], fs, k);
    assert incoming[from..][at..] == incoming[from + at..];
    if k < |fs| {
      ShowsAt(incoming[from..], fs, k);
      HeaderOf(fs[k]);
    }
  }

  /** The first packet of a client's stream, if there is one. */
  lemma FirstSent(available: seq<Byte>, fs: seq<Frame>) returns (f: Frame)
    requires Sends(available, fs)
    ensures MagicOk(f.Header()) && f.Header()[12] == f.version && f.Header()[13] == f.ptype
    ensures fs != [] ==> f == fs[0]
    ensures available == [] || !MagicOk(PeekedHeader(available))
            || (PeekedHeader(available) == f.Header() && (fs == [] ==> IsHello(f) && |available| < f.Len()))
    ensures fs != [] ==> available != [] && PeekedHeader(available) == f.Header()
  {
    hide RawFrame.Header, RawFrame.Encode, PeekedHeader, Delivers, MagicOk, HelloOk;
    if fs != [] {
      f := fs[0];
    } else if CutHello(available) {
      f :| IsHello(f) && available != [] && PeekedHeader(available) == f.Header() && |available| < f.Len();
    } else {
      f := Frame(0, 0, 0, 0, []);
    }
    HeaderOf(f);
  }

  lemma ServeNext(h: Host, b: Backend, st: ServerState, p: Pointer, scripts: seq<Script>, i: nat)
    requires i < |scripts| && ScriptsOk(scripts)
    ensures var before := Serve(h, b, st, scripts[..i]);
            var last := Session(h, b, before.0, scripts[i]);
            Serve(h, b, st, scripts[..i + 1]) == (last.state, before.1 + [last.replies])
    ensures SenseServed(h, b, st, p, scripts[..i + 1])
            == match SenseServed(h, b, st, p, scripts[..i])
               case None => None
               case Some(q) => SenseRun(h, b, Serve(h, b, st, scripts[..i]).0, q, Heard(scripts[i]))
  {
    hide Session, SenseRun, FrameOk, Heard;
    assert scripts[..i + 1][..i] == scripts[..i];
  }

  lemma ServeNone(h: Host, b: Backend, st: ServerState, p: Pointer)
    ensures Serve(h, b, st, []) == (st, []) && SenseServed(h, b, st, p, []) == Some(p)
  {
  }

  lemma RunStart(h: Host, b: Backend, st: ServerState, fs: seq<Frame>)
    requires FramesOk(fs)
    ensures Run(h, b, st, fs[..0]) == Outcome(st, []) && Encodings([]) == []
  {
  }

  lemma RunNext(h: Host, b: Backend, st: ServerState, fs: seq<Frame>, k: nat)
    requires FramesOk(fs) && k < |fs|
    ensures var before := Run(h, b, st, fs[..k]);
            var last := Step(h, b, before.state, fs[k]);
            && Run(h, b, st, fs[..k + 1]) == Outcome(last.state, before.replies + last.replies)
            && Encodings(before.replies + last.replies) == Encodings(before.replies) + Encodings(last.replies)
  {
    hide Step;
    assert fs[..k + 1][..k] == fs[..k];
  }

  lemma OnePacket(p: seq<Byte>)
    ensures Canonicals([p]) == [Canonical(p)]
  {
  }

  lemma Single()
    ensures Encodings([]) == []
    ensures forall r: Reply :: Encodings([r]) == [r.Encode()]
  {
  }

  lemma LeToHIsHToLe(order: ByteOrder, x: U32)
    ensures LeToH32(order, x) == HToLe32(order, x)
  {
  }

  lemma ScsiSizes(p: seq<Byte>)
    requires ScsiOk(p)
    ensures |ScsiRequest(p).buffer| == U32At(p, 20)
  {
  }

  lemma CopyReads(b: Backend, st: ServerState, p: seq<Byte>, mem: seq<Byte>)
    requires MultiOk(p) && |mem| == |p|
    requires mem[DataStart(Count(p))..PayloadEnd(Commands(p))] == MultiResultOf(b, st, p).area
    requires mem[PayloadEnd(Commands(p))..] == p[PayloadEnd(Commands(p))..]
    ensures mem[DataStart(Count(p))..] == CopySource(b, st, p)
    ensures MultiLeftover(b, st.os.tick, p)
            == b.Leftover(st.os.tick, MULTI_SIZE + RESPONSE_SIZE * Count(p) as int + Sum(BufLens(Commands(p))))
                 [MULTI_SIZE + RESPONSE_SIZE * Count(p)..]
  {
    hide MultiResultOf, Commands, Count, Sum, BufLens, MultiCopy.Safe;
  }

  lemma EndAfterStart(cmds: seq<SdhciCommand>)
    ensures DataStart(|cmds|) <= PayloadEnd(cmds)
  {
  }

  /** The end of the payload area, as the decoding loop leaves `off`. */
  method DataEnd(commands: array<Mmc>, ghost cmds: seq<SdhciCommand>) returns (end: nat)
    requires |cmds| == commands.Length && forall i :: 0 <= i < |cmds| ==> commands[i].bufLen == cmds[i].bufLen
    ensures end == PayloadEnd(cmds)
  {
    end := DataStart(commands.Length);
    ghost var lens := BufLens(cmds);
    for n := 0 to commands.Length
      invariant end == DataStart(|cmds|) + Sum(lens[..n])
    {
      SumNext(lens, n);
      end := end + commands[n].bufLen;
    }
    assert lens[..|lens|] == lens;
  }

  lemma WholeTaken(available: seq<Byte>, f: Frame)
    requires f.Encode() <= available
    ensures available[..Taken(available, f)] == f.Encode()
  {
    hide RawFrame.Header;
  }

  lemma HeaderLen(f: Frame)
    ensures U32At(f.Header(), 8) == f.Len()
  {
    HeaderFields(f.Len(), f.version, f.ptype, f.spare0, f.spare1, []);
    assert f.Header() + [] == f.Header();
  }

  lemma NopFilled(s: seq<Byte>, reason: Byte, text: string, error: seq<Byte>)
    requires |s| == NOP_SIZE && s[..16] == HeaderBytes(NOP_SIZE, PACKET_VERSION, NOP, 0, 0) && s[16] == reason
    requires s[17..20] == [0, 0, 0] && s[276..280] == error
    requires forall i :: 0 <= i < 256 ==> s[20 + i] == Padded(Ascii(text), 256)[i]
    ensures s == Nop(reason, text, error).Encode()
  {
    hide HeaderBytes, LeBytes, Padded, Ascii;
    NopParts(s);
    assert s[17] == s[17..20][0] && s[18] == s[17..20][1] && s[19] == s[17..20][2];
    assert s[16..20] == [reason, 0, 0, 0];
    hide NopBody;
    SameText(s, Padded(Ascii(text), 256));
    NopBodyParts(reason, text, error);
  }

  lemma NopParts(s: seq<Byte>)
    requires |s| == NOP_SIZE
    ensures s == s[..16] + (s[16..20] + s[20..276] + s[276..280])
  {
  }

  lemma NopBodyParts(reason: Byte, text: string, error: seq<Byte>)
    ensures NopBody(reason, text, error) == [reason, 0, 0, 0] + Padded(Ascii(text), 256) + error
  {
  }

  lemma SameText(s: seq<Byte>, text: seq<Byte>)
    requires |s| == NOP_SIZE && |text| == 256 && forall i :: 0 <= i < 256 ==> s[20 + i] == text[i]
    ensures s[20..276] == text
  {
  }

  lemma FreshNop(s: seq<Byte>, g: Fill)
    requires g == Fill(Zeros(NOP_SIZE), HeaderBytes(NOP_SIZE, PACKET_VERSION, NOP, 0, 0), [])
    requires g.Fits() && s == g.Now()
    ensures s[..16] == HeaderBytes(NOP_SIZE, PACKET_VERSION, NOP, 0, 0)
    ensures s[17..20] == [0, 0, 0] && s[276..280] == Zeros(4)
  {
    hide LeBytes, HeaderBytes;
    assert forall i :: 16 <= i < NOP_SIZE ==> s[i] == 0;
  }

  lemma NopCanonical(reason: Byte, text: string, error: seq<Byte>)
    requires |error| == 4
    ensures Canonical(Nop(reason, text, error).Encode()) == Nop(reason, text, error).Encode()
  {
    hide LeBytes;
    var e := Nop(reason, text, error).Encode();
    assert e[14] == 0 && e[15] == 0;
    assert e == e[..14] + [e[14], e[15]] + e[16..];
  }

  lemma ZeroImage(order: ByteOrder)
    ensures Image(order, 0, 4) == Zeros(4)
  {
    assert LeBytes(0, 4) == [0, 0, 0, 0];
  }
}
