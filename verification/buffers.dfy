/** Filling a malloc'd packet in place: header, then field after field. */
module Buffers {
  import opened Bytes
  import opened Endian
  import opened Packets

  /**
   * A packet half built: `header` and `body` are stored over the bytes `before` the buffer came with.
   */
  datatype Fill = Fill(before: seq<Byte>, header: seq<Byte>, body: seq<Byte>)
  {
    ghost predicate Fits()
    {
      |header| == HEADER_SIZE && HEADER_SIZE + |body| <= |before|
    }

    ghost function Now(): (s: seq<Byte>)
      requires Fits()
      ensures |s| == |before|
    {
      header + body + before[HEADER_SIZE + |body|..]
    }

    ghost predicate Over(out: array<Byte>)
      reads out
    {
      Fits() && |before| == out.Length && out[..] == Now()
    }
  }

  /** A memcpy of `src` to where the packet is filled up to. */
  method StoreBytes(out: array<Byte>, off: nat, src: seq<Byte>, ghost g: Fill) returns (ghost g': Fill)
    requires g.Over(out) && off == HEADER_SIZE + |g.body| && off + |src| <= out.Length
    modifies out
    ensures g' == g.(body := g.body + src) && g'.Over(out)
  {
    g' := g.(body := g.body + src);
    forall i | 0 <= i < |src| {
      out[off + i] := src[i];
    }
    assert out[..off] == (g.header + g.body + g.before[off..])[..off];
    assert out[off..off + |src|] == src;
    assert out[off + |src|..] == g.Now()[off + |src|..] == g.before[off + |src|..];
    assert out[..] == out[..off] + out[off..off + |src|] + out[off + |src|..];
    assert g.header + (g.body + src) == g.header + g.body + src;
  }

  /** The assignment of a host-order word to a packed field. */
  method StoreWord(order: ByteOrder, out: array<Byte>, off: nat, word: nat, width: nat, ghost g: Fill)
    returns (ghost g': Fill)
    requires g.Over(out) && off == HEADER_SIZE + |g.body| && off + width <= out.Length
    modifies out
    ensures g' == g.(body := g.body + Image(order, word, width)) && g'.Over(out)
  {
    hide LeBytes;
    g' := StoreBytes(out, off, Image(order, word, width), g);
  }

  method StoreLe16(order: ByteOrder, out: array<Byte>, off: nat, x: U16, ghost g: Fill) returns (ghost g': Fill)
    requires g.Over(out) && off == HEADER_SIZE + |g.body| && off + 2 <= out.Length
    modifies out
    ensures g' == g.(body := g.body + LeBytes(x, 2)) && g'.Over(out)
  {
    hide LeBytes, Image, HToLe16;
    StoreLe16Image(order, x);
    g' := StoreWord(order, out, off, HToLe16(order, x), 2, g);
  }

  method StoreLe32(order: ByteOrder, out: array<Byte>, off: nat, x: U32, ghost g: Fill) returns (ghost g': Fill)
    requires g.Over(out) && off == HEADER_SIZE + |g.body| && off + 4 <= out.Length
    modifies out
    ensures g' == g.(body := g.body + LeBytes(x, 4)) && g'.Over(out)
  {
    hide LeBytes, Image, HToLe32;
    StoreLe32Image(order, x);
    g' := StoreWord(order, out, off, HToLe32(order, x), 4, g);
  }

  method StoreLe64(order: ByteOrder, out: array<Byte>, off: nat, x: U64, ghost g: Fill) returns (ghost g': Fill)
    requires g.Over(out) && off == HEADER_SIZE + |g.body| && off + 8 <= out.Length
    modifies out
    ensures g' == g.(body := g.body + LeBytes(x, 8)) && g'.Over(out)
  {
    hide LeBytes, Image, HToLe64;
    StoreLe64Image(order, x);
    g' := StoreWord(order, out, off, HToLe64(order, x), 8, g);
  }

  method StoreByte(out: array<Byte>, off: nat, x: Byte, ghost g: Fill) returns (ghost g': Fill)
    requires g.Over(out) && off == HEADER_SIZE + |g.body| && off < out.Length
    modifies out
    ensures g' == g.(body := g.body + [x]) && g'.Over(out)
  {
    g' := StoreBytes(out, off, [x], g);
  }

  /** The five header assignments every reply arm makes; the spare bytes keep what they held. */
  method StoreHeader(order: ByteOrder, out: array<Byte>, len: U32, ptype: Byte) returns (ghost g: Fill)
    requires out.Length >= HEADER_SIZE
    modifies out
    ensures g == Fill(old(out[..]), HeaderBytes(len, PACKET_VERSION, ptype, old(out[14]), old(out[15])), [])
    ensures g.Over(out)
  {
    hide LeBytes, Image, HToLe32;
    g := Fill(out[..], HeaderBytes(len, PACKET_VERSION, ptype, out[14], out[15]), []);
    Put4(out, 8, Image(order, HToLe32(order, len), 4));
    out[13] := ptype;
    out[12] := PACKET_VERSION;
    Put4(out, 0, Image(order, HToLe32(order, REMOTE_ID), 4));
    Put4(out, 4, Image(order, HToLe32(order, PACKET_ID), 4));
    StoreLe32Image(order, len);
    StoreLe32Image(order, REMOTE_ID);
    StoreLe32Image(order, PACKET_ID);
    HeaderInPlace(out[..], g, len, ptype);
  }

  lemma HeaderInPlace(s: seq<Byte>, g: Fill, len: U32, ptype: Byte)
    requires |s| == |g.before| >= HEADER_SIZE && g.body == []
    requires g.header == HeaderBytes(len, PACKET_VERSION, ptype, s[14], s[15])
    requires s[0..4] == LeBytes(REMOTE_ID, 4) && s[4..8] == LeBytes(PACKET_ID, 4) && s[8..12] == LeBytes(len, 4)
    requires s[12] == PACKET_VERSION && s[13] == ptype && s[16..] == g.before[16..]
    ensures g.Fits() && s == g.Now()
  {
    hide LeBytes;
    assert s == s[0..4] + s[4..8] + s[8..12] + [s[12], s[13], s[14], s[15]] + s[16..];
  }

  method Put4(out: array<Byte>, off: nat, src: seq<Byte>)
    requires |src| == 4 && off + 4 <= out.Length
    modifies out
    ensures out[off..off + 4] == src
    ensures forall i :: 0 <= i < out.Length && !(off <= i < off + 4) ==> out[i] == old(out[i])
  {
    out[off], out[off + 1], out[off + 2], out[off + 3] := src[0], src[1], src[2], src[3];
  }

  /** A packet filled to its declared length is the reply, up to the spare bytes. */
  lemma Complete(g: Fill, s: seq<Byte>, ptype: Byte, spare0: Byte, spare1: Byte)
    requires g.Fits() && s == g.Now() && |g.before| == HEADER_SIZE + |g.body|
    requires g.header == HeaderBytes(|s|, PACKET_VERSION, ptype, spare0, spare1)
    ensures Canonical(s) == Reply(ptype, g.body).Encode()
    ensures spare0 == spare1 == 0 ==> s == Reply(ptype, g.body).Encode()
  {
    hide LeBytes;
    assert s == g.header + g.body;
    var e := Reply(ptype, g.body).Encode();
    assert s[..14] == e[..14] && s[16..] == e[16..];
  }
}
