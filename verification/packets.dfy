/** aaruremote.h: constants, the packed 16-byte header, whole packets and how a client cuts a stream into them. */
module Packets {
  import opened Bytes
  import opened Endian

  const REMOTE_ID := 0x52434944
  const PACKET_ID := 0x544B4350
  const PACKET_VERSION := 1
  const HEADER_SIZE := 16
  const NOP_SIZE := 280
  const HELLO_SIZE := 980
  const DEVICE_INFO_SIZE := 2052

  const NOP: Byte := 255 // packet_type is an int8_t; -1 on the wire
  const HELLO: Byte := 1
  const COMMAND_LIST_DEVICES: Byte := 2
  const RESPONSE_LIST_DEVICES: Byte := 3
  const COMMAND_OPEN_DEVICE: Byte := 4
  const COMMAND_SCSI: Byte := 5
  const RESPONSE_SCSI: Byte := 6
  const COMMAND_ATA_CHS: Byte := 7
  const RESPONSE_ATA_CHS: Byte := 8
  const COMMAND_ATA_LBA_28: Byte := 9
  const RESPONSE_ATA_LBA_28: Byte := 10
  const COMMAND_ATA_LBA_48: Byte := 11
  const RESPONSE_ATA_LBA_48: Byte := 12
  const COMMAND_SDHCI: Byte := 13
  const RESPONSE_SDHCI: Byte := 14
  const COMMAND_GET_DEVTYPE: Byte := 15
  const RESPONSE_GET_DEVTYPE: Byte := 16
  const COMMAND_GET_SDHCI_REGISTERS: Byte := 17
  const RESPONSE_GET_SDHCI_REGISTERS: Byte := 18
  const COMMAND_GET_USB_DATA: Byte := 19
  const RESPONSE_GET_USB_DATA: Byte := 20
  const COMMAND_GET_FIREWIRE_DATA: Byte := 21
  const RESPONSE_GET_FIREWIRE_DATA: Byte := 22
  const COMMAND_GET_PCMCIA_DATA: Byte := 23
  const RESPONSE_GET_PCMCIA_DATA: Byte := 24
  const COMMAND_CLOSE_DEVICE: Byte := 25
  const COMMAND_AM_I_ROOT: Byte := 26
  const RESPONSE_AM_I_ROOT: Byte := 27
  const MULTI_COMMAND_SDHCI: Byte := 28
  const RESPONSE_MULTI_SDHCI: Byte := 29
  const COMMAND_REOPEN: Byte := 30
  const COMMAND_OSREAD: Byte := 31
  const RESPONSE_OSREAD: Byte := 32

  const REASON_OOO: Byte := 0
  const REASON_NOT_RECOGNIZED: Byte := 2
  const REASON_ERROR_LIST_DEVICES: Byte := 3
  const REASON_OPEN_OK: Byte := 4
  const REASON_OPEN_ERROR: Byte := 5
  const REASON_REOPEN_OK: Byte := 6
  const REASON_CLOSE_ERROR: Byte := 5

  /** The eight bytes "DICRPCKT" every packet starts with. */
  function Magic(): (s: seq<Byte>)
    ensures |s| == 8
  {
    LeBytes(REMOTE_ID, 4) + LeBytes(PACKET_ID, 4)
  }

  function HeaderBytes(len: nat, version: Byte, ptype: Byte, spare0: Byte, spare1: Byte): (s: seq<Byte>)
    ensures |s| == HEADER_SIZE
  {
    Magic() + LeBytes(len, 4) + [version, ptype, spare0, spare1]
  }

  /** A packet as a client sends it; `len` is always the size of header and payload. */
  datatype RawFrame = Frame(version: Byte, ptype: Byte, spare0: Byte, spare1: Byte, payload: seq<Byte>)
  {
    function Len(): (n: nat)
      ensures n >= HEADER_SIZE
    {
      HEADER_SIZE + |payload|
    }

    function Header(): (s: seq<Byte>)
      ensures |s| == HEADER_SIZE
    {
      HeaderBytes(Len(), version, ptype, spare0, spare1)
    }

    function Encode(): (s: seq<Byte>)
      ensures |s| == Len()
      ensures s[..HEADER_SIZE] == Header() && s[HEADER_SIZE..] == payload
    {
      Header() + payload
    }
  }

  /** `len` reaches NetRecv as an `int32_t`. */
  type Frame = f: RawFrame | f.Len() < 0x8000_0000 witness Frame(0, 0, 0, 0, [])

  /** A packet the server sends: version 1, `len` its own size. */
  datatype Reply = Reply(ptype: Byte, body: seq<Byte>)
  {
    function Len(): (n: nat)
      ensures n >= HEADER_SIZE
    {
      HEADER_SIZE + |body|
    }

    function Encode(): (s: seq<Byte>)
      ensures |s| == Len()
      ensures s[HEADER_SIZE..] == body
    {
      HeaderBytes(Len(), PACKET_VERSION, ptype, 0, 0) + body
    }
  }

  /** Several reply arms leave the two spare header bytes as malloc returned them; this blanks them. */
  function Canonical(packet: seq<Byte>): (s: seq<Byte>)
    ensures |s| == |packet|
  {
    if |packet| < HEADER_SIZE then packet else packet[..14] + [0, 0] + packet[16..]
  }

  function Canonicals(packets: seq<seq<Byte>>): (s: seq<seq<Byte>>)
    ensures |s| == |packets|
  {
    seq(|packets|, i requires 0 <= i < |packets| => Canonical(packets[i]))
  }

  function Encodings(replies: seq<Reply>): (s: seq<seq<Byte>>)
    ensures |s| == |replies|
  {
    seq(|replies|, i requires 0 <= i < |replies| => replies[i].Encode())
  }

  lemma CanonicalsSnoc(packets: seq<seq<Byte>>, p: seq<Byte>)
    ensures Canonicals(packets + [p]) == Canonicals(packets) + [Canonical(p)]
  {
  }

  // Header fields of any 16 or more bytes, read the way the server reads them.

  function LenField(s: seq<Byte>): (n: U32)
    requires |s| >= HEADER_SIZE
  {
    U32At(s, 8)
  }

  predicate MagicOk(s: seq<Byte>)
    requires |s| >= HEADER_SIZE
  {
    s[..8] == Magic()
  }

  lemma HeaderFields(len: nat, version: Byte, ptype: Byte, spare0: Byte, spare1: Byte, rest: seq<Byte>)
    requires len < 0x1_0000_0000
    ensures var s := HeaderBytes(len, version, ptype, spare0, spare1) + rest;
            && MagicOk(s) && LenField(s) == len && s[12] == version && s[13] == ptype
            && s[14] == spare0 && s[15] == spare1
  {
    hide LeBytes, FromLe;
    var s := HeaderBytes(len, version, ptype, spare0, spare1) + rest;
    assert s[..8] == Magic();
    assert s[8..12] == LeBytes(len, 4);
    U32AtLe(s, 8, len);
  }

  /** How a client cuts the server's byte stream into packets: by magic, version and `len` alone. */
  function Parse(s: seq<Byte>): (r: Option<seq<Reply>>)
    decreases |s|
  {
    if s == [] then Some([])
    else if |s| < HEADER_SIZE || !MagicOk(s) || s[12] != PACKET_VERSION then None
    else
      var len := LenField(s);
      if len < HEADER_SIZE || len > |s| then None
      else
        match Parse(s[len..])
        case None => None
        case Some(rest) => Some([Reply(s[13], s[HEADER_SIZE..len])] + rest)
  }

  /** A packet that is a reply up to its spare bytes is the first thing Parse cuts off. */
  lemma ParseFirst(p: seq<Byte>, r: Reply, rest: seq<Byte>)
    requires r.Len() < 0x1_0000_0000
    requires Canonical(p) == r.Encode()
    ensures Parse(p + rest) ==
            match Parse(rest) case None => None case Some(rs) => Some([r] + rs)
  {
    hide LeBytes, FromLe, MagicOk, LenField;
    var e := r.Encode();
    HeaderFields(r.Len(), PACKET_VERSION, r.ptype, 0, 0, r.body);
    var s := p + rest;
    assert p[..14] == e[..14] && p[16..] == e[16..];
    SamePrefix(s, e);
    assert s[12] == e[12] && s[13] == e[13];
    assert s[r.Len()..] == rest;
    assert s[HEADER_SIZE..r.Len()] == p[HEADER_SIZE..] == r.body;
  }

  lemma SamePrefix(s: seq<Byte>, e: seq<Byte>)
    requires |s| >= HEADER_SIZE && |e| >= HEADER_SIZE && s[..14] == e[..14]
    ensures MagicOk(s) == MagicOk(e) && LenField(s) == LenField(e)
  {
    assert s[..8] == s[..14][..8] && e[..8] == e[..14][..8];
    assert s[8..12] == s[..14][8..12] && e[8..12] == e[..14][8..12];
  }

  /**
   * The server's output is self-framing: whatever the spare bytes hold, the concatenation of the
   * packets it writes parses back into exactly its replies, in order.
   */
  lemma {:induction false} OutputParses(packets: seq<seq<Byte>>, replies: seq<Reply>)
    requires Canonicals(packets) == Encodings(replies)
    requires forall r :: r in replies ==> r.Len() < 0x1_0000_0000
    ensures Parse(Flatten(packets)) == Some(replies)
  {
    hide LeBytes, FromLe, MagicOk, LenField, HeaderBytes, Canonical;
    if packets != [] {
      assert |packets| == |replies|;
      assert Canonicals(packets[1..]) == Canonicals(packets)[1..] == Encodings(replies)[1..] == Encodings(replies[1..]);
      OutputParses(packets[1..], replies[1..]);
      assert Canonical(packets[0]) == Canonicals(packets)[0] == replies[0].Encode();
      ParseFirst(packets[0], replies[0], Flatten(packets[1..]));
      assert replies == [replies[0]] + replies[1..];
    } else {
      assert |replies| == |Encodings(replies)| == 0;
    }
  }
}
