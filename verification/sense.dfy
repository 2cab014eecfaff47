/**
 * The sense pointer of the SCSI arm, worker.c:491-540 with linux/scsi.c:40-50: it is only read and freed while it
 * points to a block if and only if every SCSI packet meets an open device.
 */
module SensePointer {
  import opened Bytes
  import opened Packets
  import opened Backend
  import opened Server

  datatype Pointer = Unset | Allocated | Freed

  /**
   * One SCSI packet: set by a backend with a device, then read and freed whatever it is; None when there is no block
   * behind it.
   */
  function SenseScsi(p: Pointer, device: bool): Option<Pointer>
  {
    var now := if device then Allocated else p;
    if now == Allocated then Some(Freed) else None
  }

  /** The pointer over a whole run; no other packet touches it. */
  function SenseRun(h: Host, b: Backend, st: ServerState, p: Pointer, fs: seq<Frame>): Option<Pointer>
    requires FramesOk(fs)
  {
    if fs == [] then Some(p)
    else
      var n := |fs| - 1;
      match SenseRun(h, b, st, p, fs[..n])
      case None => None
      case Some(q) =>
        if IsScsi(fs[n]) then SenseScsi(q, Run(h, b, st, fs[..n]).state.ctx.Some?) else Some(q)
  }

  /** The pointer is never misused if and only if every SCSI packet meets an open device. */
  lemma {:induction false} SenseRunIff(h: Host, b: Backend, st: ServerState, p: Pointer, fs: seq<Frame>)
    requires FramesOk(fs) && p != Allocated
    ensures SenseRun(h, b, st, p, fs).Some? <==> ScsiHasDevice(h, b, st, fs)
    ensures SenseRun(h, b, st, p, fs) != Some(Allocated)
  {
    hide Run, FrameOk;
    if fs != [] {
      var n := |fs| - 1;
      SenseRunIff(h, b, st, p, fs[..n]);
      ScsiHasDeviceNext(h, b, st, fs);
    }
  }

  lemma ScsiHasDeviceNext(h: Host, b: Backend, st: ServerState, fs: seq<Frame>)
    requires FramesOk(fs) && fs != []
    ensures var n := |fs| - 1;
            ScsiHasDevice(h, b, st, fs) <==>
              ScsiHasDevice(h, b, st, fs[..n]) && (IsScsi(fs[n]) ==> Run(h, b, st, fs[..n]).state.ctx.Some?)
  {
    hide Run, FrameOk, IsScsi;
    var init := fs[..|fs| - 1];
    assert forall k :: 0 <= k < |init| ==> init[..k] == fs[..k] && init[k] == fs[k];
  }

  /** One packet more. */
  lemma SenseNext(h: Host, b: Backend, st: ServerState, p: Pointer, fs: seq<Frame>, k: nat)
    requires FramesOk(fs) && k < |fs|
    ensures SenseRun(h, b, st, p, fs[..k + 1])
            == match SenseRun(h, b, st, p, fs[..k])
               case None => None
               case Some(q) =>
                 if IsScsi(fs[k]) then SenseScsi(q, Run(h, b, st, fs[..k]).state.ctx.Some?) else Some(q)
  {
    hide Run, FrameOk;
    assert fs[..k + 1][..k] == fs[..k];
  }

  lemma SenseStart(h: Host, b: Backend, st: ServerState, p: Pointer, fs: seq<Frame>)
    requires FramesOk(fs)
    ensures SenseRun(h, b, st, p, fs[..0]) == Some(p)
  {
  }
}
