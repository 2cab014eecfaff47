/** The packet histories over which the sense pointer is sound, for all clients together. */
module ScsiHistory {
  import opened Bytes
  import opened Packets
  import Endian
  import opened Devices
  import opened Backend
  import opened Server
  import opened SensePointer
  import opened WorkerLoop
  import opened Guarantees

  /** In terms of the packets: the last OPEN or CLOSE is an OPEN that opened its device. */
  predicate LastOpened(h: Host, b: Backend, st: ServerState, fs: seq<Frame>)
    requires FramesOk(fs)
  {
    LastDevice(h, b, st, fs).Some?
  }

  lemma LastOpenedIff(h: Host, b: Backend, st: ServerState, fs: seq<Frame>)
    requires FramesOk(fs)
    ensures Run(h, b, st, fs).state.ctx.Some? <==> LastOpened(h, b, st, fs)
  {
    hide Run, FrameOk, LastDevice;
    DeviceDecidedByLast(h, b, st, fs);
  }

  /**
   * What WorkingLoop needs of the packets it hears, over all clients: before each SCSI packet the last OPEN or CLOSE
   * of the whole history is an OPEN that succeeded.
   */
  lemma ScsiHasDeviceIff(h: Host, b: Backend, st: ServerState, fs: seq<Frame>)
    requires FramesOk(fs)
    ensures ScsiHasDevice(h, b, st, fs)
            <==> forall k :: 0 <= k < |fs| && IsScsi(fs[k]) ==> LastOpened(h, b, st, fs[..k])
  {
    hide Run, FrameOk, LastOpened, IsScsi;
    forall k | 0 <= k < |fs|
      ensures Run(h, b, st, fs[..k]).state.ctx.Some? <==> LastOpened(h, b, st, fs[..k])
    {
      LastOpenedIff(h, b, st, fs[..k]);
    }
  }

  /** Client by client or all in one: the condition is the same. */
  lemma {:induction false} ScsiServedIff(h: Host, b: Backend, st: ServerState, scripts: seq<Script>)
    requires ScriptsOk(scripts)
    ensures ScsiServed(h, b, st, scripts) <==> ScsiHasDevice(h, b, st, History(scripts))
  {
    hide Run, FrameOk, Serve, Heard, ScsiHasDevice, ScsiServed;
    if scripts == [] {
      NothingHeard(h, b, st);
    } else {
      var n := |scripts| - 1;
      ScsiServedIff(h, b, st, scripts[..n]);
      ServeIsOneRun(h, b, st, scripts[..n]);
      ScsiHasDeviceConcat(h, b, st, History(scripts[..n]), Heard(scripts[n]));
      ScsiServedNext(h, b, st, scripts);
    }
  }

  lemma ScsiServedNext(h: Host, b: Backend, st: ServerState, scripts: seq<Script>)
    requires ScriptsOk(scripts) && scripts != []
    ensures var n := |scripts| - 1;
            ScsiServed(h, b, st, scripts) <==>
              && ScsiServed(h, b, st, scripts[..n])
              && ScsiHasDevice(h, b, Serve(h, b, st, scripts[..n]).0, Heard(scripts[n]))
  {
    hide Run, FrameOk, Serve, Heard, ScsiHasDevice;
    var init := scripts[..|scripts| - 1];
    assert forall i :: 0 <= i < |init| ==> init[..i] == scripts[..i] && init[i] == scripts[i];
  }

  lemma NothingHeard(h: Host, b: Backend, st: ServerState)
    ensures ScsiServed(h, b, st, []) && ScsiHasDevice(h, b, st, History([]))
  {
  }

  lemma {:induction false} ScsiHasDeviceConcat(h: Host, b: Backend, st: ServerState, fs: seq<Frame>, gs: seq<Frame>)
    requires FramesOk(fs) && FramesOk(gs)
    ensures FramesOk(fs + gs)
    ensures ScsiHasDevice(h, b, st, fs + gs)
            <==> ScsiHasDevice(h, b, st, fs) && ScsiHasDevice(h, b, Run(h, b, st, fs).state, gs)
    decreases |gs|
  {
    hide Run, FrameOk, ScsiHasDevice;
    if gs == [] {
      assert fs + gs == fs;
      NoneLeft(h, b, Run(h, b, st, fs).state);
    } else {
      var n := |gs| - 1;
      assert (fs + gs)[..|fs + gs| - 1] == fs + gs[..n] && (fs + gs)[|fs + gs| - 1] == gs[n];
      ScsiHasDeviceConcat(h, b, st, fs, gs[..n]);
      RunConcat(h, b, st, fs, gs[..n]);
      ScsiHasDeviceNext(h, b, st, fs + gs);
      ScsiHasDeviceNext(h, b, Run(h, b, st, fs).state, gs);
    }
  }

  lemma NoneLeft(h: Host, b: Backend, st: ServerState)
    ensures ScsiHasDevice(h, b, st, [])
  {
  }

  /** A SCSI packet after a CLOSE, with no OPEN between, reads and frees a block already freed, or none. */
  lemma ScsiAfterCloseFails(h: Host, b: Backend, st: ServerState, p: Pointer, fs: seq<Frame>, j: nat, k: nat)
    requires FramesOk(fs) && p != Allocated && j < k < |fs| && IsClose(fs[j]) && IsScsi(fs[k])
    requires forall i :: j < i < k ==> !IsOpen(fs[i])
    ensures SenseRun(h, b, st, p, fs) == None
  {
    hide Run, FrameOk, Opened, CString, RawFrame.Encode, SenseRun;
    SenseRunIff(h, b, st, p, fs);
    LastOpenedIff(h, b, st, fs[..k]);
    LastIsClose(fs[..k], j);
  }

  lemma {:induction false} LastIsClose(fs: seq<Frame>, j: nat)
    requires j < |fs| && IsClose(fs[j]) && forall i :: j < i < |fs| ==> !IsOpen(fs[i])
    ensures LastLifeEvent(fs).Some? && IsClose(fs[LastLifeEvent(fs).value])
  {
    if j < |fs| - 1 && !IsClose(fs[|fs| - 1]) {
      LastIsClose(fs[..|fs| - 1], j);
    }
  }

  /** OPEN of "/dev/sda", a SCSI packet with an empty CDB and no data, and header-only packets. */
  function OpenSda(): Frame
  {
    Frame(PACKET_VERSION, COMMAND_OPEN_DEVICE, 0, 0, [0x2F, 0x64, 0x65, 0x76, 0x2F, 0x73, 0x64, 0x61, 0])
  }

  function EmptyScsi(): Frame { Frame(PACKET_VERSION, COMMAND_SCSI, 0, 0, Zeros(16)) }

  function HeaderOnly(t: Byte): Frame { Frame(PACKET_VERSION, t, 0, 0, []) }

  lemma OpenSdaOk()
    ensures FrameOk(OpenSda()) && IsOpen(OpenSda())
  {
    hide RawFrame.Header;
    var p := OpenSda().Encode();
    assert p[HEADER_SIZE..] == OpenSda().payload;
    assert OpenSda().payload[8] == 0;
  }

  lemma EmptyScsiOk()
    ensures FrameOk(EmptyScsi())
  {
    hide RawFrame.Header;
    var p := EmptyScsi().Encode();
    assert p[HEADER_SIZE..] == Zeros(16);
    ZeroWord(p, 16);
    ZeroWord(p, 20);
  }

  lemma ZeroWord(p: seq<Byte>, off: nat)
    requires off + 4 <= |p| && forall i :: off <= i < off + 4 ==> p[i] == 0
    ensures Endian.U32At(p, off) == 0
  {
    Endian.FromLe4(p[off..off + 4]);
  }

  /**
   * The shortest failures, whatever the kernel and the devices do: SCSI as the first packet heard, and OPEN, SCSI,
   * CLOSE, SCSI. Every one of these packets is well-formed.
   */
  lemma ShortestFailures(h: Host, b: Backend, os: Os, nopError: seq<Byte>)
    ensures var st := ServerState(None, os, nopError);
            var close := HeaderOnly(COMMAND_CLOSE_DEVICE);
            && FramesOk([EmptyScsi()]) && SenseRun(h, b, st, Unset, [EmptyScsi()]) == None
            && FramesOk([OpenSda(), EmptyScsi(), close, EmptyScsi()])
            && SenseRun(h, b, st, Unset, [OpenSda(), EmptyScsi(), close, EmptyScsi()]) == None
  {
    hide RawFrame.Encode, Step, Zeros;
    EmptyScsiOk();
    OpenSdaOk();
    assert FrameOk(HeaderOnly(COMMAND_CLOSE_DEVICE));
    hide FrameOk, Run, SenseRun;
    var st, close := ServerState(None, os, nopError), HeaderOnly(COMMAND_CLOSE_DEVICE);
    var first, fs := [EmptyScsi()], [OpenSda(), EmptyScsi(), close, EmptyScsi()];
    SenseRunIff(h, b, st, Unset, first);
    LastOpenedIff(h, b, st, first[..0]);
    ScsiAfterCloseFails(h, b, st, Unset, fs, 2, 3);
  }

  // Worker.senseBuf over all clients.

  lemma {:induction false} SenseRunConcat(h: Host, b: Backend, st: ServerState, p: Pointer, fs: seq<Frame>,
                                          gs: seq<Frame>)
    requires FramesOk(fs) && FramesOk(gs)
    ensures FramesOk(fs + gs)
    ensures SenseRun(h, b, st, p, fs + gs)
            == match SenseRun(h, b, st, p, fs)
               case None => None
               case Some(q) => SenseRun(h, b, Run(h, b, st, fs).state, q, gs)
    decreases |gs|
  {
    hide Run, FrameOk, SenseRun;
    var st' := Run(h, b, st, fs).state;
    if gs == [] {
      assert fs + gs == fs && gs[..0] == gs;
      if SenseRun(h, b, st, p, fs).Some? {
        SenseStart(h, b, st', SenseRun(h, b, st, p, fs).value, gs);
      }
    } else {
      var n, all := |gs| - 1, fs + gs;
      SenseRunConcat(h, b, st, p, fs, gs[..n]);
      RunConcat(h, b, st, fs, gs[..n]);
      assert all[..|all| - 1] == fs + gs[..n] && all[|all| - 1] == gs[n];
      assert all[..|all|] == all && gs[..|gs|] == gs;
      SenseNext(h, b, st, p, all, |all| - 1);
      if SenseRun(h, b, st, p, fs).Some? {
        SenseNext(h, b, st', SenseRun(h, b, st, p, fs).value, gs, n);
      }
    }
  }

  /** What WorkingLoop ends with in sense_buf is what one run over all packets heard leaves there. */
  lemma {:induction false} SenseServedIsOneRun(h: Host, b: Backend, st: ServerState, p: Pointer, scripts: seq<Script>)
    requires ScriptsOk(scripts)
    ensures SenseServed(h, b, st, p, scripts) == SenseRun(h, b, st, p, History(scripts))
  {
    hide Run, FrameOk, SenseRun, Serve, Heard;
    if scripts == [] {
      SenseStart(h, b, st, p, []);
    } else {
      var init, last := scripts[..|scripts| - 1], scripts[|scripts| - 1];
      SenseServedIsOneRun(h, b, st, p, init);
      ServeIsOneRun(h, b, st, init);
      SenseRunConcat(h, b, st, p, History(init), Heard(last));
    }
  }
}
