/**
 * Client byte streams as the command loop takes them: packet after packet by the peeked header and its length, then
 * the end of the stream or bytes that are no packet.
 */
module Streams {
  import opened Bytes
  import opened Endian
  import opened Packets
  import opened Network
  import opened Server

  /** The bytes of `tail` over again until there are `len`. */
  function Repeated(tail: seq<Byte>, len: nat): (s: seq<Byte>)
    requires tail != []
    ensures |s| == len
    decreases len
  {
    if len <= |tail| then tail[..len] else tail + Repeated(tail, len - |tail|)
  }

  /** The header a peek shows: if fewer than 16 bytes are left, the same bytes again. */
  function PeekedHeader(tail: seq<Byte>): (s: seq<Byte>)
    requires tail != []
    ensures |s| == HEADER_SIZE
  {
    Repeated(tail, HEADER_SIZE)
  }

  /** A stream that goes no further: closed, or continued with something that is no packet. */
  predicate EndsHere(tail: seq<Byte>)
  {
    tail == [] || !MagicOk(PeekedHeader(tail))
  }

  /** Every peek gets a whole header from its first recv, if the stream holds one. */
  ghost predicate WholePeeks(schedule: Schedule)
  {
    forall call: nat :: schedule(call, true) >= HEADER_SIZE
  }

  lemma {:induction false} PeekRepeats(available: seq<Byte>, len: nat, schedule: Schedule, call: nat)
    requires available != [] && WholePeeks(schedule) && len <= HEADER_SIZE
    ensures Peeked(available, len, schedule, call) == Repeated(available, len)
    decreases len
  {
    if len > 0 {
      var n := Min(len, |available|);
      assert schedule(call, true) >= HEADER_SIZE;
      assert ChunkSize(schedule, call, true, len, |available|) == n;
      PeekRepeats(available, len - n, schedule, call + 1);
    }
  }

  /** What the header peek shows, at a packet and at the end of the packets. */
  lemma PeekShows(available: seq<Byte>, schedule: Schedule, call: nat)
    requires WholePeeks(schedule)
    ensures available != [] ==> Peeked(available, HEADER_SIZE, schedule, call) == PeekedHeader(available)
  {
    if available != [] {
      PeekRepeats(available, HEADER_SIZE, schedule, call);
    }
  }

  lemma PeekedFrame(available: seq<Byte>, f: Frame)
    requires f.Encode() <= available
    ensures PeekedHeader(available) == f.Header()
  {
    hide RawFrame.Header, RawFrame.Encode;
    assert available[..HEADER_SIZE] == f.Encode()[..HEADER_SIZE];
  }

  lemma HeaderOf(f: Frame)
    ensures MagicOk(f.Header()) && LenField(f.Header()) == f.Len()
    ensures f.Header()[12] == f.version && f.Header()[13] == f.ptype
    ensures f.Header()[14] == f.spare0 && f.Header()[15] == f.spare1
  {
    HeaderFields(f.Len(), f.version, f.ptype, f.spare0, f.spare1, []);
    assert f.Header() + [] == f.Header();
  }

  /** How much of the stream a NetRecv of a packet's length takes: the last packet may be cut short. */
  function Taken(s: seq<Byte>, f: Frame): (n: nat)
    ensures n <= |s| && n <= f.Len()
    ensures f.Encode() <= s ==> n == f.Len()
    ensures s != [] ==> n > 0
  {
    Min(f.Len(), |s|)
  }

  /** The stream goes on with packet f: its header is peeked, and all of it is there if a handler looks at the body. */
  predicate Shows(s: seq<Byte>, f: Frame)
  {
    s != [] && PeekedHeader(s) == f.Header() && (ReadsBody(f) ==> f.Encode() <= s)
  }

  /**
   * The stream is these packets and nothing more that is one. Bodies nobody looks at may hold anything, and the stream
   * may break off inside the last of them.
   */
  predicate Delivers(s: seq<Byte>, fs: seq<Frame>)
    decreases |fs|
  {
    if fs == [] then EndsHere(s) else Shows(s, fs[0]) && Delivers(s[Taken(s, fs[0])..], fs[1..])
  }

  /** A stream that breaks off inside the client's hello. */
  ghost predicate CutHello(s: seq<Byte>)
  {
    exists f: Frame :: IsHello(f) && s != [] && PeekedHeader(s) == f.Header() && |s| < f.Len()
  }

  /**
   * What a client sends, hello first. A first packet that is none is never received, and a hello that is not all there
   * is no better.
   */
  ghost predicate Sends(s: seq<Byte>, fs: seq<Frame>)
  {
    if fs == [] then EndsHere(s) || CutHello(s)
    else
      && s != [] && PeekedHeader(s) == fs[0].Header()
      && (IsHello(fs[0]) ==>
            fs[0].Encode() <= s && HelloOk(fs[0].Encode()) && Delivers(s[fs[0].Len()..], fs[1..]))
  }

  /** Where the cursor stands behind the first k packets of a stream of `total` bytes. */
  function Stand(total: nat, fs: seq<Frame>, k: nat): (at: nat)
    requires k <= |fs|
    ensures at <= total
  {
    if k == 0 then 0 else Min(Stand(total, fs, k - 1) + fs[k - 1].Len(), total)
  }

  lemma {:induction false} StandTail(total: nat, fs: seq<Frame>, first: nat, k: nat)
    requires k < |fs| && first == Min(fs[0].Len(), total)
    ensures Stand(total, fs, k + 1) == first + Stand(total - first, fs[1..], k)
  {
    if k > 0 {
      StandTail(total, fs, first, k - 1);
    } else {
      assert Stand(total, fs, 1) == Min(Stand(total, fs, 0) + fs[0].Len(), total);
    }
  }

  /** Behind the first k packets the stream goes on with the others. */
  lemma {:induction false} DeliversAt(s: seq<Byte>, fs: seq<Frame>, k: nat)
    requires Delivers(s, fs) && k <= |fs|
    ensures Delivers(s[Stand(|s|, fs, k)..], fs[k..])
    decreases k
  {
    hide Shows, Stand, Taken, Delivers;
    if k == 0 {
      StandStart(|s|, fs);
      assert s[0..] == s && fs[0..] == fs;
    } else {
      var first := Taken(s, fs[0]);
      DeliversFirst(s, fs);
      DeliversAt(s[first..], fs[1..], k - 1);
      TakenIs(s, fs[0]);
      StandTail(|s|, fs, first, k - 1);
      DropTwice(s, first, Stand(|s| - first, fs[1..], k - 1));
      assert fs[1..][k - 1..] == fs[k..];
    }
  }

  lemma DeliversFirst(s: seq<Byte>, fs: seq<Frame>)
    requires Delivers(s, fs) && fs != []
    ensures Shows(s, fs[0]) && Delivers(s[Taken(s, fs[0])..], fs[1..])
  {
    hide Shows, Taken;
  }

  lemma StandStart(total: nat, fs: seq<Frame>)
    ensures Stand(total, fs, 0) == 0
  {
  }

  lemma TakenIs(s: seq<Byte>, f: Frame)
    ensures Taken(s, f) == Min(f.Len(), |s|)
  {
  }

  lemma DropTwice(s: seq<Byte>, i: nat, j: nat)
    requires i + j <= |s|
    ensures s[i..][j..] == s[i + j..]
  {
  }

  /** The next of them, and where the cursor stands behind it. */
  lemma ShowsAt(s: seq<Byte>, fs: seq<Frame>, k: nat)
    requires Delivers(s, fs) && k < |fs|
    ensures var at := Stand(|s|, fs, k);
            Shows(s[at..], fs[k]) && Stand(|s|, fs, k + 1) == at + Taken(s[at..], fs[k])
  {
    hide Shows, Delivers;
    DeliversAt(s, fs, k);
    DeliversFirst(s[Stand(|s|, fs, k)..], fs[k..]);
    assert fs[k..][0] == fs[k];
  }

  // Streams of whole packets, and of whole packets with a last one cut short.

  function Wire(fs: seq<Frame>): (s: seq<Byte>)
  {
    if fs == [] then [] else fs[0].Encode() + Wire(fs[1..])
  }

  lemma {:induction false} WireDelivers(fs: seq<Frame>, tail: seq<Byte>)
    requires EndsHere(tail)
    ensures Delivers(Wire(fs) + tail, fs)
  {
    hide RawFrame.Encode, RawFrame.Header, EndsHere, PeekedHeader;
    if fs == [] {
      assert Wire(fs) + tail == tail;
    } else {
      WireDelivers(fs[1..], tail);
      PacketFirst(fs[0], Wire(fs[1..]) + tail);
      assert Wire(fs) + tail == fs[0].Encode() + (Wire(fs[1..]) + tail);
    }
  }

  lemma {:induction false} CutDelivers(fs: seq<Frame>, f: Frame, cut: seq<Byte>)
    requires !ReadsBody(f) && cut != [] && PeekedHeader(cut) == f.Header() && |cut| < f.Len()
    ensures Delivers(Wire(fs) + cut, fs + [f])
  {
    hide RawFrame.Encode, RawFrame.Header, PeekedHeader;
    if fs == [] {
      assert Wire(fs) + cut == cut && fs + [f] == [f] && [f][1..] == [];
      assert cut[Taken(cut, f)..] == [];
    } else {
      CutDelivers(fs[1..], f, cut);
      PacketFirst(fs[0], Wire(fs[1..]) + cut);
      assert Wire(fs) + cut == fs[0].Encode() + (Wire(fs[1..]) + cut);
      assert (fs + [f])[1..] == fs[1..] + [f];
    }
  }

  lemma PacketFirst(f: Frame, rest: seq<Byte>)
    ensures var s := f.Encode() + rest; Shows(s, f) && s[Taken(s, f)..] == rest
  {
    hide RawFrame.Encode, RawFrame.Header, PeekedHeader;
    PeekedFrame(f.Encode() + rest, f);
  }

  // Which bytes are covered, told from the bytes.

  /** The packet a stream begins with; what is missing of it reads as zeros. */
  function First(s: seq<Byte>): (f: Frame)
    requires s != [] && HEADER_SIZE <= LenField(PeekedHeader(s)) as int < INT32_LIMIT
    ensures f.Len() == LenField(PeekedHeader(s))
  {
    var h := PeekedHeader(s);
    var len: nat := LenField(h);
    Frame(h[12], h[13], h[14], h[15], if len <= |s| then s[HEADER_SIZE..len] else Zeros(len - HEADER_SIZE))
  }

  /**
   * Every header the loop comes to announces a length of 16 or more that fits an int32_t, and packets that are looked
   * into are all there and well-formed.
   */
  predicate Fair(s: seq<Byte>)
    decreases |s|
  {
    || EndsHere(s)
    || (&& HEADER_SIZE <= LenField(PeekedHeader(s)) as int < INT32_LIMIT
        && FrameOk(First(s)) && (ReadsBody(First(s)) ==> First(s).Len() <= |s|)
        && Fair(s[Taken(s, First(s))..]))
  }

  lemma FirstShown(s: seq<Byte>)
    requires !EndsHere(s) && HEADER_SIZE <= LenField(PeekedHeader(s)) as int < INT32_LIMIT
    requires ReadsBody(First(s)) ==> First(s).Len() <= |s|
    ensures Shows(s, First(s))
  {
    hide LeBytes, FromLe, Repeated;
    var h, f := PeekedHeader(s), First(s);
    Pow256Values();
    LeBytesFromLe(h[8..12]);
    assert h == h[..8] + h[8..12] + [h[12], h[13], h[14], h[15]];
    assert f.Header() == h;
    if f.Len() <= |s| {
      WholeFirst(s);
    }
  }

  lemma WholeFirst(s: seq<Byte>)
    requires s != [] && HEADER_SIZE <= LenField(PeekedHeader(s)) as int < INT32_LIMIT
    requires First(s).Len() <= |s| && First(s).Header() == PeekedHeader(s)
    ensures First(s).Encode() <= s
  {
    hide RawFrame.Header, LenField;
    var f := First(s);
    assert PeekedHeader(s) == s[..HEADER_SIZE];
    assert f.Encode() == s[..HEADER_SIZE] + s[HEADER_SIZE..f.Len()];
  }

  /** A packet shown is the first one, as far as anybody looks. */
  lemma ShownFirst(s: seq<Byte>, f: Frame)
    requires Shows(s, f)
    ensures !EndsHere(s) && HEADER_SIZE <= LenField(PeekedHeader(s)) as int < INT32_LIMIT
    ensures First(s).Len() == f.Len() && ReadsBody(First(s)) == ReadsBody(f) && (ReadsBody(f) ==> First(s) == f)
    ensures First(s).version == f.version && First(s).ptype == f.ptype
  {
    hide RawFrame.Header, PeekedHeader, MagicOk, LenField;
    HeaderOf(f);
    if ReadsBody(f) {
      assert s[HEADER_SIZE..f.Len()] == f.Encode()[HEADER_SIZE..] == f.payload;
    }
  }

  /** The streams that are well-formed packets are exactly the fair ones. */
  lemma FairIff(s: seq<Byte>)
    ensures Fair(s) <==> exists fs :: FramesOk(fs) && Delivers(s, fs)
  {
    hide FrameOk, Delivers, Fair;
    if Fair(s) {
      var fs := FairPackets(s);
    } else {
      forall fs | FramesOk(fs) && Delivers(s, fs)
        ensures false
      {
        PacketsFair(s, fs);
      }
    }
  }

  lemma {:induction false} FairPackets(s: seq<Byte>) returns (fs: seq<Frame>)
    requires Fair(s)
    ensures FramesOk(fs) && Delivers(s, fs)
    decreases |s|
  {
    hide FrameOk, PeekedHeader, LenField;
    if EndsHere(s) {
      fs := [];
    } else {
      var f := First(s);
      FirstShown(s);
      var more := FairPackets(s[Taken(s, f)..]);
      fs := [f] + more;
      assert fs[1..] == more;
    }
  }

  lemma {:induction false} PacketsFair(s: seq<Byte>, fs: seq<Frame>)
    requires FramesOk(fs) && Delivers(s, fs)
    ensures Fair(s)
    decreases |fs|
  {
    hide RawFrame.Encode, PeekedHeader, LenField, OpenOk, TransferOk;
    if fs != [] {
      ShownFirst(s, fs[0]);
      PacketsFair(s[Taken(s, fs[0])..], fs[1..]);
    }
  }
}
