/** What holds of the simple server over whole runs: pairing of replies, framing of the output, device history. */
module Guarantees {
  import opened Bytes
  import opened Endian
  import opened Packets
  import opened Devices
  import opened Backend
  import opened Ata
  import opened Sdhci
  import opened MultiSdhci
  import opened Server
  import opened WorkerLoop
  import ListDevices

  // One packet back for every packet in, except CLOSE_DEVICE and foreign versions.

  predicate Answers(f: Frame)
  {
    f.version == PACKET_VERSION && f.ptype != COMMAND_CLOSE_DEVICE
  }

  function AnswerCount(fs: seq<Frame>): nat
  {
    if fs == [] then 0 else AnswerCount(fs[..|fs| - 1]) + if Answers(fs[|fs| - 1]) then 1 else 0
  }

  lemma QueryReply(h: Host, b: Backend, st: ServerState, t: Byte)
    requires IsQuery(t) && |st.nopError| == 4
    ensures var r := QueryStep(h, b, st, t);
            && r.0.nopError == st.nopError && (r.1.ptype == NOP || r.1.ptype == t + 1) && r.1.Len() < INT32_LIMIT
  {
    hide LeBytes, UsbBody, FireWireBody, PcmciaBody, RegistersBody, NopBody;
    ListDevices.FlattenLength(b.listDevices(st.os.tick));
  }

  lemma TransferReply(h: Host, b: Backend, st: ServerState, t: Byte, p: seq<Byte>)
    requires IsTransfer(t) && TransferOk(t, p)
    ensures var r := TransferStep(h, b, st, t, p);
            r.0.nopError == st.nopError && r.1.ptype == t + 1 && r.1.Len() < INT32_LIMIT
  {
    hide LeBytes, U32At, U64At, ScsiBody, Ata28Body, Ata48Body, SdhciBody, MultiReplyHead, SendMultiSpec, ShippedArea,
         SendAta28Spec, SendAta48Spec, OsReadSpec, Request48, Mmcs;
    if t == COMMAND_SCSI {
      ScsiSizes(p);
    }
  }

  /** A reply is a NOP or carries the type after its request's, and its length fits the int32_t of NetWrite. */
  lemma StepReply(h: Host, b: Backend, st: ServerState, f: Frame)
    requires FrameOk(f) && |st.nopError| == 4
    ensures |Step(h, b, st, f).state.nopError| == 4
    ensures |Step(h, b, st, f).replies| == if Answers(f) then 1 else 0
    ensures Answers(f) ==> var r := Step(h, b, st, f).replies[0];
              && (r.ptype == NOP || r.ptype == f.ptype + 1)
              && r.Len() < INT32_LIMIT
  {
    hide LeBytes, RawFrame.Encode, QueryStep, TransferStep, NopBody, Opened, ReOpened, Closed, CString, TransferOk;
    if f.version == PACKET_VERSION {
      if IsQuery(f.ptype) {
        QueryReply(h, b, st, f.ptype);
      } else if IsTransfer(f.ptype) {
        TransferReply(h, b, st, f.ptype, f.Encode());
      }
    }
  }

  /** Reply number n of a run answers the n-th packet that asks for an answer, and no other. */
  lemma {:induction false} RepliesPaired(h: Host, b: Backend, st: ServerState, fs: seq<Frame>)
    requires FramesOk(fs) && |st.nopError| == 4
    ensures var o := Run(h, b, st, fs);
            && |o.state.nopError| == 4
            && |o.replies| == AnswerCount(fs)
            && (forall r :: r in o.replies ==> r.Len() < INT32_LIMIT)
            && (forall k :: 0 <= k < |fs| && Answers(fs[k]) ==>
                  && AnswerCount(fs[..k]) < |o.replies|
                  && [o.replies[AnswerCount(fs[..k])]] == Step(h, b, Run(h, b, st, fs[..k]).state, fs[k]).replies)
  {
    hide Step, FrameOk;
    if fs != [] {
      var n := |fs| - 1;
      var init := fs[..n];
      RepliesPaired(h, b, st, init);
      StepReply(h, b, Run(h, b, st, init).state, fs[n]);
      var o := Run(h, b, st, fs);
      forall k | 0 <= k < |fs| && Answers(fs[k])
        ensures AnswerCount(fs[..k]) < |o.replies|
        ensures [o.replies[AnswerCount(fs[..k])]] == Step(h, b, Run(h, b, st, fs[..k]).state, fs[k]).replies
      {
        if k < n {
          assert init[..k] == fs[..k] && init[k] == fs[k];
        }
      }
    }
  }

  // All clients together are one history of packets.

  lemma RunNone(h: Host, b: Backend, st: ServerState)
    ensures Run(h, b, st, []) == Outcome(st, [])
  {
  }

  lemma RunLast(h: Host, b: Backend, st: ServerState, fs: seq<Frame>)
    requires FramesOk(fs) && fs != []
    ensures Run(h, b, st, fs).state
            == Step(h, b, Run(h, b, st, fs[..|fs| - 1]).state, fs[|fs| - 1]).state
  {
    hide Step, FrameOk;
  }

  lemma {:induction false} RunConcat(h: Host, b: Backend, st: ServerState, fs: seq<Frame>, gs: seq<Frame>)
    requires FramesOk(fs) && FramesOk(gs)
    ensures FramesOk(fs + gs)
    ensures Run(h, b, st, fs + gs).state == Run(h, b, Run(h, b, st, fs).state, gs).state
    decreases |gs|
  {
    hide Run, FrameOk;
    if gs == [] {
      assert fs + gs == fs;
      RunNone(h, b, Run(h, b, st, fs).state);
    } else {
      var n, all := |gs| - 1, fs + gs;
      RunConcat(h, b, st, fs, gs[..n]);
      assert all[..|all| - 1] == fs + gs[..n] && all[|all| - 1] == gs[n];
      RunLast(h, b, st, all);
      RunLast(h, b, Run(h, b, st, fs).state, gs);
    }
  }

  function History(scripts: seq<Script>): (fs: seq<Frame>)
    requires ScriptsOk(scripts)
    ensures FramesOk(fs)
  {
    if scripts == [] then []
    else History(scripts[..|scripts| - 1]) + Heard(scripts[|scripts| - 1])
  }

  /** Connecting and disconnecting changes nothing: the server's state is that of one run over all packets heard. */
  lemma {:induction false} ServeIsOneRun(h: Host, b: Backend, st: ServerState, scripts: seq<Script>)
    requires ScriptsOk(scripts)
    ensures Serve(h, b, st, scripts).0 == Run(h, b, st, History(scripts)).state
  {
    hide Step, FrameOk;
    if scripts != [] {
      var init, last := scripts[..|scripts| - 1], scripts[|scripts| - 1];
      ServeIsOneRun(h, b, st, init);
      RunConcat(h, b, st, History(init), Heard(last));
    }
  }

  lemma {:induction false} ServeAt(h: Host, b: Backend, st: ServerState, scripts: seq<Script>, i: nat)
    requires ScriptsOk(scripts) && i < |scripts|
    ensures Serve(h, b, st, scripts).1[i]
            == Session(h, b, Serve(h, b, st, scripts[..i]).0, scripts[i]).replies
    decreases |scripts|
  {
    hide Session, FrameOk;
    var n := |scripts| - 1;
    if i < n {
      ServeAt(h, b, st, scripts[..n], i);
      assert scripts[..n][..i] == scripts[..i];
    }
  }

  /**
   * What WorkingLoop writes to a client, for all clients: behind the hello the bytes, cut by magic, version and
   * length alone, are exactly the replies of its session in order, one for each packet heard that asks for one,
   * whatever the uninitialised spare bytes hold.
   */
  lemma TranscriptParses(h: Host, b: Backend, st: ServerState, scripts: seq<Script>, i: nat, hello: seq<Byte>,
                         transcript: seq<seq<Byte>>)
    requires ScriptsOk(scripts) && i < |scripts| && |st.nopError| == 4
    requires Canonicals(transcript) == [Canonical(hello)] + Encodings(Serve(h, b, st, scripts).1[i])
    ensures |transcript| > 0
    ensures Parse(Flatten(transcript[1..])) == Some(Serve(h, b, st, scripts).1[i])
    ensures |Serve(h, b, st, scripts).1[i]| == AnswerCount(Heard(scripts[i]))
  {
    hide Session, Run, Serve, FrameOk, Canonical, Parse;
    var before := Serve(h, b, st, scripts[..i]).0;
    ServeAt(h, b, st, scripts, i);
    ServeIsOneRun(h, b, st, scripts[..i]);
    RepliesPaired(h, b, st, History(scripts[..i]));
    RepliesPaired(h, b, before, Heard(scripts[i]));
    SessionIsRun(h, b, before, scripts[i]);
    assert Canonicals(transcript[1..]) == Canonicals(transcript)[1..];
    OutputParses(transcript[1..], Serve(h, b, st, scripts).1[i]);
  }

  lemma SessionIsRun(h: Host, b: Backend, st: ServerState, fs: seq<Frame>)
    requires FramesOk(fs)
    ensures Session(h, b, st, fs) == Run(h, b, st, Heard(fs))
  {
  }

  // The device.

  predicate IsOpen(f: Frame) { f.version == PACKET_VERSION && f.ptype == COMMAND_OPEN_DEVICE }

  predicate IsClose(f: Frame) { f.version == PACKET_VERSION && f.ptype == COMMAND_CLOSE_DEVICE }

  predicate IsReopen(f: Frame) { f.version == PACKET_VERSION && f.ptype == COMMAND_REOPEN }

  predicate IsPcmcia(f: Frame) { f.version == PACKET_VERSION && f.ptype == COMMAND_GET_PCMCIA_DATA }

  /** The last OPEN or CLOSE of a history. */
  function LastLifeEvent(fs: seq<Frame>): (k: Option<nat>)
    ensures k.Some? ==> k.value < |fs| && (IsOpen(fs[k.value]) || IsClose(fs[k.value]))
  {
    if fs == [] then None
    else if IsOpen(fs[|fs| - 1]) || IsClose(fs[|fs| - 1]) then Some(|fs| - 1)
    else LastLifeEvent(fs[..|fs| - 1])
  }

  predicate SameDevice(a: Option<Ctx>, b: Option<Ctx>)
  {
    a.Some? == b.Some? && (a.Some? ==> a.value.path == b.value.path)
  }

  /** What the last OPEN or CLOSE of a history leaves open. */
  function LastDevice(h: Host, b: Backend, st: ServerState, fs: seq<Frame>): Option<Ctx>
    requires FramesOk(fs)
  {
    match LastLifeEvent(fs)
    case None => st.ctx
    case Some(k) =>
      if IsClose(fs[k]) then None
      else Opened(b.kernel, Run(h, b, st, fs[..k]).state.os, CString(fs[k].Encode()[16..])).1
  }

  /** The streams after a packet that is none of the three: the same, or so many more numbers nobody had. */
  ghost predicate LeavesOpen(b: Backend, st: ServerState, after: set<int>, f: Frame)
  {
    && st.os.streams <= after
    && |after| == |st.os.streams| + (if IsPcmcia(f) then b.Pcmcia(st.os.tick, st.ctx).streams else 0)
    && (forall fd :: fd in after && fd !in st.os.streams ==> fd > 2 && fd !in st.os.fds)
  }

  /** How a step moves device and descriptor table, by the kind of packet. */
  lemma StepDevice(h: Host, b: Backend, st: ServerState, f: Frame)
    requires FrameOk(f)
    ensures var st' := Step(h, b, st, f).state;
            && (IsOpen(f) ==> (st'.os, st'.ctx) == Opened(b.kernel, st.os, CString(f.Encode()[16..])))
            && (IsClose(f) ==> st'.os == Closed(b.kernel, st.os, st.ctx) && st'.ctx == None)
            && (IsReopen(f) ==> var r := ReOpened(b.kernel, st.os, st.ctx); (st'.os, st'.ctx) == (r.os, r.ctx))
            && (!IsOpen(f) && !IsClose(f) && !IsReopen(f) ==>
                  st'.ctx == st.ctx && st'.os.fds == st.os.fds && LeavesOpen(b, st, st'.os.streams, f))
  {
    hide LeBytes, RawFrame.Encode, CString, Opened, Closed, ReOpened, U32At, U64At, ScsiBody, Ata28Body, Ata48Body,
         SdhciBody, MultiReplyBody, UsbBody, FireWireBody, PcmciaBody, RegistersBody, NopBody, SendMultiSpec,
         SendAta28Spec, SendAta48Spec, OsReadSpec, Request48, Mmcs, CommandAt;
  }

  /**
   * The device every command talks to is decided by the last OPEN or CLOSE in the whole history: none after a
   * CLOSE or a failed OPEN, the path that OPEN resolved otherwise. REOPEN and everything else keep it.
   */
  lemma {:induction false} DeviceDecidedByLast(h: Host, b: Backend, st: ServerState, fs: seq<Frame>)
    requires FramesOk(fs)
    ensures SameDevice(Run(h, b, st, fs).state.ctx, LastDevice(h, b, st, fs))
  {
    hide Step, FrameOk, Opened, CString, RawFrame.Encode;
    if fs != [] {
      var n := |fs| - 1;
      var init := fs[..n];
      DeviceDecidedByLast(h, b, st, init);
      var st1 := Run(h, b, st, init).state;
      StepDevice(h, b, st1, fs[n]);
      if !IsOpen(fs[n]) && !IsClose(fs[n]) {
        var k := LastLifeEvent(init);
        if k.Some? {
          assert init[..k.value] == fs[..k.value];
        }
      }
    }
  }

  predicate Holds(st: ServerState)
  {
    st.ctx.Some? && st.ctx.value.fd in st.os.fds
  }

  function HeldCount(st: ServerState): nat
  {
    if Holds(st) then 1 else 0
  }

  /** The OPENs that came while a device was still open: DeviceOpen never closes what it replaces. */
  function Displaced(h: Host, b: Backend, st: ServerState, fs: seq<Frame>): nat
    requires FramesOk(fs)
  {
    if fs == [] then 0
    else
      var n := |fs| - 1;
      Displaced(h, b, st, fs[..n]) + if IsOpen(fs[n]) && Holds(Run(h, b, st, fs[..n]).state) then 1 else 0
  }

  /** The streams a packet leaves open behind it. */
  function StreamsBy(b: Backend, st: ServerState, f: Frame): nat
  {
    if IsPcmcia(f) then b.Pcmcia(st.os.tick, st.ctx).streams else 0
  }

  /**
   * The streams a packet closes: a close of REOPEN that failed has given the context's number back, and when a stream
   * has taken it since, the next close of the context hits the stream.
   */
  function StruckBy(st: ServerState, f: Frame): nat
  {
    if (IsClose(f) || IsReopen(f)) && st.ctx.Some? && st.ctx.value.fd in st.os.streams then 1 else 0
  }

  /** All the streams GET_PCMCIA_DATA packets of a run leave open. */
  function StreamsLeft(h: Host, b: Backend, st: ServerState, fs: seq<Frame>): nat
    requires FramesOk(fs)
  {
    if fs == [] then 0
    else
      var n := |fs| - 1;
      StreamsLeft(h, b, st, fs[..n]) + StreamsBy(b, Run(h, b, st, fs[..n]).state, fs[n])
  }

  function StreamsStruck(h: Host, b: Backend, st: ServerState, fs: seq<Frame>): nat
    requires FramesOk(fs)
  {
    if fs == [] then 0
    else
      var n := |fs| - 1;
      StreamsStruck(h, b, st, fs[..n]) + StruckBy(Run(h, b, st, fs[..n]).state, fs[n])
  }

  /** A table in which no number is a device's and a stream's at once. */
  predicate Sound(os: Os)
  {
    && os.fds !! os.streams
    && (forall fd :: fd in os.fds ==> fd >= 0) && (forall fd :: fd in os.streams ==> fd >= 0)
  }

  /** The table holds the descriptors from before, and the context's descriptor is not one of those. */
  predicate Apart(base: Os, os: Os, ctx: Option<Ctx>)
  {
    && Sound(base) && Sound(os) && base.fds <= os.fds && base.streams <= os.streams
    && (ctx.Some? ==> ctx.value.fd !in base.Table())
  }

  lemma OpenCount(k: Kernel, base: Os, os: Os, ctx: Option<Ctx>, path: Path)
    requires Apart(base, os, ctx)
    ensures var r := Opened(k, os, path);
            && Apart(base, r.0, r.1) && r.0.streams == os.streams
            && |r.0.fds| == |os.fds| + (if r.1.Some? then 1 else 0)
            && (r.1.Some? ==> r.1.value.fd in r.0.fds)
  {
    hide OpenEither, OpenPath, AfterRealPath;
  }

  /** A close of the context's number touches nothing from before. */
  lemma CloseCount(k: Kernel, base: Os, os: Os, ctx: Ctx)
    requires Apart(base, os, Some(ctx))
    ensures var r := SysClose(k, os, ctx.fd).0;
            && Apart(base, r, Some(ctx)) && ctx.fd !in r.Table()
            && |r.fds| == |os.fds| - (if ctx.fd in os.fds then 1 else 0)
            && |r.streams| == |os.streams| - (if ctx.fd in os.streams then 1 else 0)
  {
    hide SysClose;
    var r := SysClose(k, os, ctx.fd).0;
    StillThere(base.fds, os.fds, ctx.fd);
    StillThere(base.streams, os.streams, ctx.fd);
    hide Apart;
    Without(os.fds, ctx.fd);
    Without(os.streams, ctx.fd);
    ClosedApart(base, os, r, ctx);
  }

  lemma StillThere(base: set<int>, s: set<int>, x: int)
    requires base <= s && x !in base
    ensures base <= s - {x}
  {
  }

  lemma ClosedApart(base: Os, os: Os, r: Os, ctx: Ctx)
    requires Apart(base, os, Some(ctx)) && r.fds == os.fds - {ctx.fd} && r.streams == os.streams - {ctx.fd}
    requires base.fds <= r.fds && base.streams <= r.streams
    ensures Apart(base, r, Some(ctx)) && ctx.fd !in r.Table()
  {
  }

  lemma Without(s: set<int>, x: int)
    ensures |s - {x}| == |s| - if x in s then 1 else 0
  {
    if x !in s {
      assert s - {x} == s;
    }
  }

  lemma EitherCount(k: Kernel, base: Os, os: Os, ctx: Ctx)
    requires Apart(base, os, Some(ctx))
    ensures var r := OpenEither(k, os, ctx.path);
            && Apart(base, r.0, Some(ctx.(fd := r.1))) && r.0.streams == os.streams
            && |r.0.fds| == |os.fds| + (if r.1 in r.0.fds then 1 else 0)
  {
    hide OpenEither;
  }

  lemma ReOpenCount(k: Kernel, base: Os, os: Os, ctx: Ctx)
    requires Apart(base, os, Some(ctx))
    ensures var r := ReOpened(k, os, Some(ctx));
            && r.ctx.Some? && Apart(base, r.os, r.ctx)
            && |r.os.fds| - (if r.ctx.value.fd in r.os.fds then 1 else 0)
               == |os.fds| - (if ctx.fd in os.fds then 1 else 0)
            && |r.os.streams| == |os.streams| - (if ctx.fd in os.streams then 1 else 0)
  {
    hide OpenEither, SysClose, Apart;
    var closed := SysClose(k, os, ctx.fd);
    CloseCount(k, base, os, ctx);
    if closed.1 >= 0 {
      EitherCount(k, base, closed.0, ctx);
    }
  }

  /** Every other packet adds numbers nobody had, if any. */
  lemma OtherApart(b: Backend, base: Os, st: ServerState, st': ServerState, f: Frame)
    requires Apart(base, st.os, st.ctx)
    requires st'.ctx == st.ctx && st'.os.fds == st.os.fds && LeavesOpen(b, st, st'.os.streams, f)
    ensures Apart(base, st'.os, st'.ctx)
    ensures |st'.os.streams| == |st.os.streams| + StreamsBy(b, st, f)
  {
    assert forall fd :: fd in st'.os.streams ==> fd in st.os.streams || fd !in st.os.fds;
  }

  lemma DescriptorStep(h: Host, b: Backend, base: Os, st: ServerState, f: Frame)
    requires FrameOk(f) && Apart(base, st.os, st.ctx)
    ensures var st' := Step(h, b, st, f).state;
            && Apart(base, st'.os, st'.ctx)
            && |st'.os.fds| - HeldCount(st')
               == |st.os.fds| - HeldCount(st) + (if IsOpen(f) && Holds(st) then 1 else 0)
            && |st'.os.streams| == |st.os.streams| + StreamsBy(b, st, f) - StruckBy(st, f)
  {
    hide FrameOk, CString, RawFrame.Encode, LeavesOpen;
    StepDevice(h, b, st, f);
    hide Step, Opened, ReOpened, SysClose;
    if IsOpen(f) {
      OpenCount(b.kernel, base, st.os, st.ctx, CString(f.Encode()[16..]));
    } else if IsReopen(f) {
      hide Apart;
      if st.ctx.Some? {
        ReOpenCount(b.kernel, base, st.os, st.ctx.value);
      } else {
        NoReOpen(b.kernel, st.os);
      }
    } else if IsClose(f) {
      if st.ctx.Some? {
        CloseCount(b.kernel, base, st.os, st.ctx.value);
      }
    } else {
      hide Apart;
      OtherApart(b, base, st, Step(h, b, st, f).state, f);
    }
  }

  lemma NoReOpen(k: Kernel, os: Os)
    ensures ReOpened(k, os, None).os == os && ReOpened(k, os, None).ctx == None
  {
  }

  /**
   * Descriptors over a whole history, all clients: those from before stay; the current device holds at most one, and
   * every further one of a device was left behind by an OPEN that displaced an open device; the streams are those that
   * GET_PCMCIA_DATA packets left open, less those a stale close struck. REOPEN never adds any.
   */
  lemma {:induction false} DescriptorsAccounted(h: Host, b: Backend, st: ServerState, fs: seq<Frame>)
    requires FramesOk(fs) && st.ctx.None? && Sound(st.os)
    ensures var end := Run(h, b, st, fs).state;
            && Apart(st.os, end.os, end.ctx)
            && |end.os.fds| == |st.os.fds| + Displaced(h, b, st, fs) + HeldCount(end)
            && |end.os.streams| == |st.os.streams| + StreamsLeft(h, b, st, fs) - StreamsStruck(h, b, st, fs)
  {
    hide Step, FrameOk;
    if fs != [] {
      var n := |fs| - 1;
      DescriptorsAccounted(h, b, st, fs[..n]);
      DescriptorStep(h, b, st.os, Run(h, b, st, fs[..n]).state, fs[n]);
    }
  }

  /**
   * A history that leaves no device open leaves the descriptor table as it was if and only if no OPEN displaced an
   * open device and every stream that GET_PCMCIA_DATA left open was struck again.
   */
  lemma NoLeak(h: Host, b: Backend, st: ServerState, fs: seq<Frame>)
    requires FramesOk(fs) && st.ctx.None? && Sound(st.os)
    requires !Holds(Run(h, b, st, fs).state)
    ensures Run(h, b, st, fs).state.os.SameTable(st.os) <==>
              Displaced(h, b, st, fs) == 0 && StreamsLeft(h, b, st, fs) == StreamsStruck(h, b, st, fs)
  {
    hide FrameOk, Run;
    DescriptorsAccounted(h, b, st, fs);
    var os := Run(h, b, st, fs).state.os;
    SameSize(st.os.fds, os.fds);
    SameSize(st.os.streams, os.streams);
  }

  lemma SameSize(a: set<int>, b: set<int>)
    requires a <= b
    ensures a == b <==> |a| == |b|
  {
    if |a| == |b| {
      assert |b - a| == 0;
    }
  }

  /** A REOPEN whose close fails on a descriptor that was open: the context keeps a number that is free again. */
  predicate CloseFails(b: Backend, st: ServerState, f: Frame)
  {
    IsReopen(f) && Holds(st) && ReOpened(b.kernel, st.os, st.ctx).closeFailed != 0
  }

  predicate ClosesWork(h: Host, b: Backend, st: ServerState, fs: seq<Frame>)
    requires FramesOk(fs)
  {
    forall k :: 0 <= k < |fs| ==> !CloseFails(b, Run(h, b, st, fs[..k]).state, fs[k])
  }

  /** The context's number is its own. */
  predicate Fixed(st: ServerState)
  {
    Sound(st.os) && (st.ctx.Some? ==> st.ctx.value.fd in st.os.fds || st.ctx.value.fd == -1)
  }

  lemma FixedStep(h: Host, b: Backend, st: ServerState, f: Frame)
    requires FrameOk(f) && Fixed(st) && !CloseFails(b, st, f)
    ensures Fixed(Step(h, b, st, f).state) && StruckBy(st, f) == 0
  {
    hide FrameOk, CString, RawFrame.Encode, Opened, ReOpened, Closed;
    StepDevice(h, b, st, f);
    hide Step;
    if IsOpen(f) {
      OpenFixed(b.kernel, st.os, CString(f.Encode()[16..]));
    } else if IsReopen(f) {
      ReOpenFixed(b.kernel, st.os, st.ctx);
    }
  }

  lemma OpenFixed(k: Kernel, os: Os, path: Path)
    requires Sound(os)
    ensures Sound(Opened(k, os, path).0)
  {
    hide OpenEither, OpenPath, AfterRealPath;
  }

  lemma ReOpenFixed(k: Kernel, os: Os, ctx: Option<Ctx>)
    requires Sound(os) && (ctx.Some? ==> ctx.value.fd in os.fds || ctx.value.fd == -1)
    requires ctx.Some? && ctx.value.fd in os.fds ==> ReOpened(k, os, ctx).closeFailed == 0
    ensures var r := ReOpened(k, os, ctx);
            Sound(r.os) && (r.ctx.Some? ==> r.ctx.value.fd in r.os.fds || r.ctx.value.fd == -1)
  {
    hide OpenEither;
  }

  /** While the closes of REOPEN succeed no stream is ever struck. */
  lemma {:induction false} NoneStruck(h: Host, b: Backend, st: ServerState, fs: seq<Frame>)
    requires FramesOk(fs) && ClosesWork(h, b, st, fs) && Fixed(st)
    ensures Fixed(Run(h, b, st, fs).state) && StreamsStruck(h, b, st, fs) == 0
  {
    hide Step, FrameOk, CloseFails, Fixed, StruckBy;
    if fs != [] {
      var n := |fs| - 1;
      assert forall k :: 0 <= k < n ==> fs[..n][..k] == fs[..k];
      NoneStruck(h, b, st, fs[..n]);
      FixedStep(h, b, Run(h, b, st, fs[..n]).state, fs[n]);
    }
  }

  lemma {:induction false} LeftNothing(h: Host, b: Backend, st: ServerState, fs: seq<Frame>)
    requires FramesOk(fs)
    ensures StreamsLeft(h, b, st, fs) == 0 <==>
              forall k :: 0 <= k < |fs| && IsPcmcia(fs[k]) ==>
                var before := Run(h, b, st, fs[..k]).state; b.Pcmcia(before.os.tick, before.ctx).streams == 0
  {
    hide Run, FrameOk;
    if fs != [] {
      var n := |fs| - 1;
      var init := fs[..n];
      LeftNothing(h, b, st, init);
      assert forall k :: 0 <= k < n ==> init[..k] == fs[..k] && init[k] == fs[k];
    }
  }

  /** Then nothing leaks exactly when no OPEN displaced a device and no GET_PCMCIA_DATA left a stream open. */
  lemma NoLeakWhileClosesWork(h: Host, b: Backend, st: ServerState, fs: seq<Frame>)
    requires FramesOk(fs) && st.ctx.None? && Sound(st.os) && ClosesWork(h, b, st, fs)
    requires !Holds(Run(h, b, st, fs).state)
    ensures Run(h, b, st, fs).state.os.SameTable(st.os) <==>
              && Displaced(h, b, st, fs) == 0
              && forall k :: 0 <= k < |fs| && IsPcmcia(fs[k]) ==>
                   var before := Run(h, b, st, fs[..k]).state; b.Pcmcia(before.os.tick, before.ctx).streams == 0
  {
    hide FrameOk, Run, ClosesWork;
    NoLeak(h, b, st, fs);
    NoneStruck(h, b, st, fs);
    LeftNothing(h, b, st, fs);
  }

  /**
   * OPEN, GET_PCMCIA_DATA, CLOSE from a server without a device: when the device opens, the streams the backend left
   * open are there for good although nothing was displaced.
   */
  lemma PcmciaLeaves(h: Host, b: Backend, st: ServerState, open: Frame, pcmcia: Frame, close: Frame)
    requires FrameOk(open) && IsOpen(open) && FrameOk(pcmcia) && IsPcmcia(pcmcia) && FrameOk(close) && IsClose(close)
    requires st.ctx.None? && Sound(st.os)
    ensures var fs := [open, pcmcia, close];
            var r := Opened(b.kernel, st.os, CString(open.Encode()[16..]));
            && FramesOk(fs) && Displaced(h, b, st, fs) == 0
            && Run(h, b, st, fs).state.os.fds == st.os.fds
            && |Run(h, b, st, fs).state.os.streams|
               == |st.os.streams| + b.Pcmcia(r.0.tick, r.1).streams
  {
    hide FrameOk, CString, RawFrame.Encode, Opened, Step;
    var fs := [open, pcmcia, close];
    var st1 := Step(h, b, st, open).state;
    assert fs[..1] == [open] && fs[..2] == [open, pcmcia];
    RunOfOne(h, b, st, open);
    RunOfTwo(h, b, st, open, pcmcia);
    StepDevice(h, b, st, open);
    StepDevice(h, b, st1, pcmcia);
    CountsOfThree(h, b, st, open, pcmcia, close);
    hide Run;
    DescriptorsAccounted(h, b, st, fs);
    LastIsClosed(h, b, st, fs);
    SameSize(st.os.fds, Run(h, b, st, fs).state.os.fds);
  }

  lemma RunOfOne(h: Host, b: Backend, st: ServerState, f: Frame)
    requires FrameOk(f)
    ensures FramesOk([f]) && Run(h, b, st, [f]).state == Step(h, b, st, f).state
  {
    hide FrameOk, Step;
    assert [f][..0] == [];
  }

  lemma RunOfTwo(h: Host, b: Backend, st: ServerState, f: Frame, g: Frame)
    requires FrameOk(f) && FrameOk(g)
    ensures FramesOk([f, g]) && Run(h, b, st, [f, g]).state == Step(h, b, Step(h, b, st, f).state, g).state
  {
    hide FrameOk, Step;
    RunOfOne(h, b, st, f);
    assert [f, g][..1] == [f];
  }

  lemma LastIsClosed(h: Host, b: Backend, st: ServerState, fs: seq<Frame>)
    requires FramesOk(fs) && fs != [] && IsClose(fs[|fs| - 1])
    ensures Run(h, b, st, fs).state.ctx == None
  {
    hide FrameOk, Step;
    StepDevice(h, b, Run(h, b, st, fs[..|fs| - 1]).state, fs[|fs| - 1]);
  }

  /** One packet more in the three counts. */
  lemma CountsNext(h: Host, b: Backend, st: ServerState, fs: seq<Frame>, f: Frame)
    requires FramesOk(fs) && FrameOk(f)
    ensures FramesOk(fs + [f])
    ensures var before := Run(h, b, st, fs).state;
            && Displaced(h, b, st, fs + [f])
               == Displaced(h, b, st, fs) + (if IsOpen(f) && Holds(before) then 1 else 0)
            && StreamsLeft(h, b, st, fs + [f]) == StreamsLeft(h, b, st, fs) + StreamsBy(b, before, f)
            && StreamsStruck(h, b, st, fs + [f]) == StreamsStruck(h, b, st, fs) + StruckBy(before, f)
  {
    hide FrameOk, Run, StreamsBy, StruckBy, Holds;
    assert (fs + [f])[..|fs|] == fs;
  }

  lemma CountsOfThree(h: Host, b: Backend, st: ServerState, open: Frame, pcmcia: Frame, close: Frame)
    requires FramesOk([open, pcmcia, close]) && IsOpen(open) && IsPcmcia(pcmcia) && IsClose(close) && st.ctx.None?
    requires FramesOk([open]) && FramesOk([open, pcmcia])
    ensures var fs, st1, st2 := [open, pcmcia, close], Run(h, b, st, [open]).state, Run(h, b, st, [open, pcmcia]).state;
            && Displaced(h, b, st, fs) == 0
            && StreamsLeft(h, b, st, fs) == b.Pcmcia(st1.os.tick, st1.ctx).streams
            && StreamsStruck(h, b, st, fs) == StruckBy(st2, close)
  {
    hide FrameOk, Run, Displaced, StreamsLeft, StreamsStruck;
    var fs := [open, pcmcia, close];
    assert FrameOk(fs[0]) && FrameOk(fs[1]) && FrameOk(fs[2]);
    RunNone(h, b, st);
    CountsNone(h, b, st);
    CountsNext(h, b, st, [], open);
    CountsNext(h, b, st, [open], pcmcia);
    CountsNext(h, b, st, [open, pcmcia], close);
    assert [] + [open] == [open] && [open] + [pcmcia] == [open, pcmcia] && [open, pcmcia] + [close] == fs;
  }

  lemma CountsNone(h: Host, b: Backend, st: ServerState)
    ensures Displaced(h, b, st, []) == StreamsLeft(h, b, st, []) == StreamsStruck(h, b, st, []) == 0
  {
  }

  // The one NOP packet.

  /** The last OPEN or REOPEN of a history: the only packets that write error_no. */
  function LastErrorEvent(fs: seq<Frame>): (k: Option<nat>)
    ensures k.Some? ==> k.value < |fs| && (IsOpen(fs[k.value]) || IsReopen(fs[k.value]))
  {
    if fs == [] then None
    else if IsOpen(fs[|fs| - 1]) || IsReopen(fs[|fs| - 1]) then Some(|fs| - 1)
    else LastErrorEvent(fs[..|fs| - 1])
  }

  /** error_no as the last OPEN or REOPEN leaves it: errno in host order, or REOPEN's result in wire order. */
  function LastError(h: Host, b: Backend, st: ServerState, fs: seq<Frame>): seq<Byte>
    requires FramesOk(fs)
  {
    match LastErrorEvent(fs)
    case None => st.nopError
    case Some(k) =>
      var before := Run(h, b, st, fs[..k]).state;
      if IsOpen(fs[k])
      then Image(h.order, Bits32(Opened(b.kernel, before.os, CString(fs[k].Encode()[16..])).0.errno), 4)
      else LeBytes(Bits32(ReOpened(b.kernel, before.os, before.ctx).ret), 4)
  }

  lemma ZeroBytes()
    ensures LeBytes(0, 4) == Zeros(4)
  {
    assert LeBytes(0, 4) == [0, 0, 0, 0];
  }

  lemma StepError(h: Host, b: Backend, st: ServerState, f: Frame)
    requires FrameOk(f)
    ensures var st' := Step(h, b, st, f).state;
            && (IsOpen(f) ==>
                  var os := Opened(b.kernel, st.os, CString(f.Encode()[16..])).0;
                  st'.nopError == Image(h.order, Bits32(os.errno), 4))
            && (IsReopen(f) ==> st'.nopError == LeBytes(Bits32(ReOpened(b.kernel, st.os, st.ctx).ret), 4))
            && (!IsOpen(f) && !IsReopen(f) ==> st'.nopError == st.nopError)
  {
    hide LeBytes, RawFrame.Encode, CString, Opened, ReOpened, U32At, U64At, Image, ScsiBody, Ata28Body, Ata48Body,
         SdhciBody, MultiReplyBody, UsbBody, FireWireBody, PcmciaBody, RegistersBody, NopBody, SendMultiSpec,
         SendAta28Spec, SendAta48Spec, OsReadSpec, Closed, Request48, Mmcs, CommandAt;
    ZeroBytes();
  }

  /**
   * Every NOP, to whichever client, carries the error_no of the last OPEN or REOPEN in the whole history: the
   * packet is reused and nothing else clears the field.
   */
  lemma {:induction false} ErrorDecidedByLast(h: Host, b: Backend, st: ServerState, fs: seq<Frame>)
    requires FramesOk(fs)
    ensures Run(h, b, st, fs).state.nopError == LastError(h, b, st, fs)
  {
    hide Step, FrameOk, Opened, ReOpened, CString, RawFrame.Encode, LeBytes, Image;
    if fs != [] {
      var n := |fs| - 1;
      var init := fs[..n];
      ErrorDecidedByLast(h, b, st, init);
      StepError(h, b, Run(h, b, st, init).state, fs[n]);
      if !IsOpen(fs[n]) && !IsReopen(fs[n]) {
        var k := LastErrorEvent(init);
        if k.Some? {
          assert init[..k.value] == fs[..k.value] && init[k.value] == fs[k.value];
        }
      }
    }
  }
}
