/** The whole life of a server process, from unix/unix.c:27: what all clients together get out of WorkingLoop. */
module Life {
  import opened Bytes
  import opened Endian
  import opened Packets
  import opened Devices
  import opened Backend
  import opened Server
  import opened WorkerLoop
  import opened Guarantees
  import opened ScsiHistory
  import HostOrder

  /** No device, and the NOP packet zeroed. */
  function Fresh(os: Os): ServerState
  {
    ServerState(None, os, Zeros(4))
  }

  /** What the packets of all clients must do for the sense pointer: no SCSI but under an OPEN that succeeded. */
  predicate ScsiUnderOpen(h: Host, b: Backend, st: ServerState, fs: seq<Frame>)
    requires FramesOk(fs)
  {
    forall k :: 0 <= k < |fs| && IsScsi(fs[k]) ==> LastOpened(h, b, st, fs[..k])
  }

  /** What client `i` is answered: its session in the state that the packets of the clients before it left. */
  function RepliesTo(h: Host, b: Backend, os: Os, scripts: seq<Script>, i: nat): seq<Reply>
    requires ScriptsOk(scripts) && i < |scripts|
  {
    Run(h, b, Run(h, b, Fresh(os), History(scripts[..i])).state, Heard(scripts[i])).replies
  }

  /** A client's bytes, cut by magic, version and length alone, are a hello and one reply per packet that asks. */
  ghost predicate Answered(transcript: seq<seq<Byte>>, hello: seq<Byte>, replies: seq<Reply>, heard: seq<Frame>)
  {
    && transcript != [] && Canonical(transcript[0]) == Canonical(hello)
    && Parse(Flatten(transcript[1..])) == Some(replies) && |replies| == AnswerCount(heard)
  }

  /** Device, descriptors and error_no at the end of a history of packets, by the last events in it. */
  ghost predicate Accounted(h: Host, b: Backend, os: Os, fs: seq<Frame>, end: ServerState)
    requires FramesOk(fs)
  {
    && SameDevice(end.ctx, LastDevice(h, b, Fresh(os), fs))
    && os.fds <= end.os.fds && os.streams <= end.os.streams
    && |end.os.fds| == |os.fds| + Displaced(h, b, Fresh(os), fs) + HeldCount(end)
    && |end.os.streams|
       == |os.streams| + StreamsLeft(h, b, Fresh(os), fs) - StreamsStruck(h, b, Fresh(os), fs)
    && end.nopError == LastError(h, b, Fresh(os), fs)
  }

  lemma EndAccounted(h: Host, b: Backend, os: Os, fs: seq<Frame>)
    requires FramesOk(fs) && Sound(os)
    ensures Accounted(h, b, os, fs, Run(h, b, Fresh(os), fs).state)
  {
    hide Run, FrameOk, LastDevice, LastError, Displaced, StreamsLeft, StreamsStruck;
    DeviceDecidedByLast(h, b, Fresh(os), fs);
    DescriptorsAccounted(h, b, Fresh(os), fs);
    ErrorDecidedByLast(h, b, Fresh(os), fs);
  }

  lemma ClientAnswered(h: Host, b: Backend, os: Os, scripts: seq<Script>, i: nat, hello: seq<Byte>,
                       transcript: seq<seq<Byte>>)
    requires ScriptsOk(scripts) && i < |scripts|
    requires Canonicals(transcript) == [Canonical(hello)] + Encodings(Serve(h, b, Fresh(os), scripts).1[i])
    ensures Answered(transcript, hello, RepliesTo(h, b, os, scripts, i), Heard(scripts[i]))
  {
    hide Run, FrameOk, Session, Heard, Canonical, Parse, Serve;
    TranscriptParses(h, b, Fresh(os), scripts, i, hello, transcript);
    RepliesAre(h, b, os, scripts, i);
    assert Canonicals(transcript)[0] == Canonical(transcript[0]);
  }

  /**
   * For all clients, all well-formed packets with SCSI under an OPEN that succeeded, every ending of the streams, every
   * chunking by recv, every behaviour of kernel and devices: each client gets the hello and its replies, and what
   * the server ends with is accounted for by the packets heard from all of them.
   */
  method PlatformLoop(host: Host, backend: Backend, os: Os, hello: array<Byte>, clients: seq<Client>,
                      ghost scripts: seq<Script>)
    returns (transcripts: seq<seq<seq<Byte>>>, end: ServerState)
    requires |scripts| == |clients| && ScriptsOk(scripts)
    requires forall i :: 0 <= i < |clients| ==> Plays(clients[i], scripts[i])
    requires ScsiUnderOpen(host, backend, Fresh(os), History(scripts))
    requires Sound(os)
    ensures |transcripts| == |clients|
    ensures forall i :: 0 <= i < |clients| ==>
              Answered(transcripts[i], hello[..], RepliesTo(host, backend, os, scripts, i), Heard(scripts[i]))
    ensures end == Run(host, backend, Fresh(os), History(scripts)).state
    ensures Accounted(host, backend, os, History(scripts), end)
  {
    hide Run, FrameOk, Serve, LastOpened, ScsiHasDevice, ScsiServed, Answered, Accounted, RepliesTo, History, Heard,
         Encodings, Canonical, Canonicals, Plays;
    ScsiHasDeviceIff(host, backend, Fresh(os), History(scripts));
    ScsiServedIff(host, backend, Fresh(os), scripts);
    var worker := new Worker(host, backend, os);
    transcripts := worker.WorkingLoop(hello, clients, scripts);
    end := worker.Now();
    ServeIsOneRun(host, backend, Fresh(os), scripts);
    EndAccounted(host, backend, os, History(scripts));
    forall i | 0 <= i < |clients|
      ensures Answered(transcripts[i], hello[..], RepliesTo(host, backend, os, scripts, i), Heard(scripts[i]))
    {
      ClientAnswered(host, backend, os, scripts, i, hello[..], transcripts[i]);
    }
  }

  /**
   * Two servers alike but for the byte order of their machines, and the same packets: what each client can read out of
   * the one server's bytes and out of the other's differs in the bytes of HostOrdered only.
   */
  lemma TranscriptsAlike(signed: bool, b: Backend, os: Os, scripts: seq<Script>, i: nat, hello: seq<Byte>,
                         hello': seq<Byte>, transcript: seq<seq<Byte>>, transcript': seq<seq<Byte>>)
    requires ScriptsOk(scripts) && HostOrder.ScriptsEven(scripts) && i < |scripts|
    requires Answered(transcript, hello, RepliesTo(Host(Little, signed), b, os, scripts, i), Heard(scripts[i]))
    requires Answered(transcript', hello', RepliesTo(Host(Big, signed), b, os, scripts, i), Heard(scripts[i]))
    ensures var r, r' := Parse(Flatten(transcript[1..])), Parse(Flatten(transcript'[1..]));
            r.Some? && r'.Some? && HostOrder.AllAlike(r.value, r'.value)
  {
    hide Run, FrameOk, Heard, Parse, HostOrder.EvenFeature, HostOrder.Alike;
    RepliesAlike(signed, b, os, scripts, i);
  }

  lemma RepliesAlike(signed: bool, b: Backend, os: Os, scripts: seq<Script>, i: nat)
    requires ScriptsOk(scripts) && HostOrder.ScriptsEven(scripts) && i < |scripts|
    ensures HostOrder.AllAlike(RepliesTo(Host(Little, signed), b, os, scripts, i),
                               RepliesTo(Host(Big, signed), b, os, scripts, i))
  {
    hide Run, FrameOk, Session, Heard, HostOrder.EvenFeature, HostOrder.AllAlike, Serve;
    var h, h' := Host(Little, signed), Host(Big, signed);
    HostOrder.ServeAlike(signed, b, Fresh(os), scripts);
    RepliesAre(h, b, os, scripts, i);
    RepliesAre(h', b, os, scripts, i);
  }

  lemma RepliesAre(h: Host, b: Backend, os: Os, scripts: seq<Script>, i: nat)
    requires ScriptsOk(scripts) && i < |scripts|
    ensures RepliesTo(h, b, os, scripts, i) == Serve(h, b, Fresh(os), scripts).1[i]
  {
    hide Run, FrameOk, Session, Heard, Serve;
    ServeAt(h, b, Fresh(os), scripts, i);
    ServeIsOneRun(h, b, Fresh(os), scripts[..i]);
    SessionIsRun(h, b, Serve(h, b, Fresh(os), scripts[..i]).0, scripts[i]);
  }

  /** The condition on SCSI packets is the same on both machines. */
  lemma SameUnderOpen(signed: bool, b: Backend, os: Os, fs: seq<Frame>)
    requires FramesOk(fs) && HostOrder.EvenFeatures(fs)
    ensures ScsiUnderOpen(Host(Little, signed), b, Fresh(os), fs)
            <==> ScsiUnderOpen(Host(Big, signed), b, Fresh(os), fs)
  {
    hide Run, FrameOk, LastOpened, IsScsi, HostOrder.EvenFeature, HostOrder.AllAlike;
    var h, h' := Host(Little, signed), Host(Big, signed);
    forall k | 0 <= k < |fs|
      ensures LastOpened(h, b, Fresh(os), fs[..k]) <==> LastOpened(h', b, Fresh(os), fs[..k])
    {
      HostOrder.RunAlike(signed, b, Fresh(os), Fresh(os), fs[..k]);
      LastOpenedIff(h, b, Fresh(os), fs[..k]);
      LastOpenedIff(h', b, Fresh(os), fs[..k]);
    }
  }
}
