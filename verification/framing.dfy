/**
 * The framing skeleton of the command loop, worker.c:252-314, over arbitrary bytes: when does it end? Headers are
 * what a whole peek shows; handlers are reduced to whether they consume `len` bytes now or set skip_next_hdr.
 */
module Framing {
  import opened Bytes
  import opened Packets
  import opened Server
  import opened Streams

  datatype Loop = Running(cursor: nat, skip: bool) | Stopped

  /** A NetRecv of hdr.len, an int32_t, that is not a peek: how far the cursor goes. */
  function Advance(s: seq<Byte>, cursor: nat): (c: nat)
    requires cursor < |s|
    ensures cursor <= c <= |s|
    ensures c == cursor <==> Stuck(s, cursor)
  {
    var len := LenField(PeekedHeader(s[cursor..]));
    if len >= INT32_LIMIT then cursor else Min(cursor + len, |s|)
  }

  /** A header whose length makes NetRecv take nothing: zero, or negative as an int32_t. */
  predicate Stuck(s: seq<Byte>, cursor: nat)
    requires cursor < |s|
  {
    var len := LenField(PeekedHeader(s[cursor..]));
    len == 0 || len >= INT32_LIMIT
  }

  /** One iteration; a pending skip uses the header still in pkt_hdr, which is the one at the cursor. */
  function Iterate(s: seq<Byte>, l: Loop): Loop
    requires l.Running? ==> l.cursor <= |s| && (l.skip ==> l.cursor < |s|)
    ensures var l' := Iterate(s, l); l'.Running? ==> l'.cursor <= |s| && (l'.skip ==> l'.cursor < |s|)
  {
    match l
    case Stopped => Stopped
    case Running(cursor, skip) =>
      var at := if skip then Advance(s, cursor) else cursor;
      if at == |s| then Stopped
      else
        var header := PeekedHeader(s[at..]);
        if !MagicOk(header) then Stopped
        else if Skips(header[12], header[13]) then Running(at, true)
        else Running(Advance(s, at), false)
  }

  function After(s: seq<Byte>, n: nat): (l: Loop)
    ensures l.Running? ==> l.cursor <= |s| && (l.skip ==> l.cursor < |s|)
  {
    if n == 0 then Running(0, false) else Iterate(s, After(s, n - 1))
  }

  /** The loop comes to a header, with the right magic, that says nothing is to be consumed. */
  ghost predicate ReachesStuck(s: seq<Byte>)
  {
    exists n: nat :: StuckAt(s, After(s, n))
  }

  ghost predicate StuckAt(s: seq<Byte>, l: Loop)
    requires l.Running? ==> l.cursor <= |s|
  {
    && l.Running? && l.cursor < |s|
    && MagicOk(PeekedHeader(s[l.cursor..])) && Stuck(s, l.cursor)
  }

  ghost predicate Ends(s: seq<Byte>)
  {
    exists n: nat :: After(s, n) == Stopped
  }

  /** Once there, the loop sees that header for ever. */
  lemma StuckStays(s: seq<Byte>, l: Loop)
    requires (l.Running? ==> l.cursor <= |s| && (l.skip ==> l.cursor < |s|)) && StuckAt(s, l)
    ensures StuckAt(s, Iterate(s, l))
  {
    hide PeekedHeader, MagicOk, Skips, LenField;
  }

  lemma {:induction false} StoppedStays(s: seq<Byte>, n: nat, m: nat)
    requires n <= m && After(s, n) == Stopped
    ensures After(s, m) == Stopped
    decreases m
  {
    hide PeekedHeader, MagicOk, Skips, Advance;
    if n < m {
      StoppedStays(s, n, m - 1);
    }
  }

  lemma {:induction false} StuckForever(s: seq<Byte>, n: nat, m: nat)
    requires n <= m && StuckAt(s, After(s, n))
    ensures StuckAt(s, After(s, m))
    decreases m
  {
    hide Iterate, StuckAt;
    if n < m {
      StuckForever(s, n, m - 1);
      StuckStays(s, After(s, m - 1));
    }
  }

  /** Unread bytes, then 1 if no skip is pending: each iteration lowers it unless the header is stuck. */
  lemma Progress(s: seq<Byte>, l: Loop)
    requires l.Running? && l.cursor <= |s| && (l.skip ==> l.cursor < |s| && MagicOk(PeekedHeader(s[l.cursor..])))
    requires !StuckAt(s, l)
    ensures var l' := Iterate(s, l);
            l'.Stopped? || StuckAt(s, l') || l'.cursor > l.cursor || (l'.cursor == l.cursor && l'.skip && !l.skip)
  {
    hide PeekedHeader, MagicOk, Skips, LenField;
  }

  /** A pending skip always has a header with the right magic before it. */
  lemma {:induction false} PendingMagic(s: seq<Byte>, n: nat)
    ensures var l := After(s, n);
            l.Running? && l.skip ==> l.cursor < |s| && MagicOk(PeekedHeader(s[l.cursor..]))
  {
    hide PeekedHeader, MagicOk, Skips;
    if n > 0 {
      PendingMagic(s, n - 1);
    }
  }

  lemma {:induction false} StopsFrom(s: seq<Byte>, n: nat) returns (m: nat)
    requires forall k: nat :: !StuckAt(s, After(s, k))
    ensures After(s, m) == Stopped
    decreases if After(s, n).Running? then |s| - After(s, n).cursor + 1 else 0,
              if After(s, n).Running? && !After(s, n).skip then 1 else 0
  {
    hide PeekedHeader, MagicOk, Skips, Advance, LenField;
    var l := After(s, n);
    if l.Stopped? {
      return n;
    }
    PendingMagic(s, n);
    assert !StuckAt(s, After(s, n)) && !StuckAt(s, After(s, n + 1));
    Progress(s, l);
    m := StopsFrom(s, n + 1);
  }

  /**
   * Over any finite byte stream the command loop ends if and only if it never comes to a packet header whose
   * length is 0 or negative as an int32_t. With all lengths positive it always ends.
   */
  lemma EndsIffNeverStuck(s: seq<Byte>)
    ensures Ends(s) <==> !ReachesStuck(s)
  {
    hide PeekedHeader, MagicOk, Skips, Advance, Iterate, LenField;
    if ReachesStuck(s) {
      var n: nat :| StuckAt(s, After(s, n));
      if Ends(s) {
        var m: nat :| After(s, m) == Stopped;
        if n <= m {
          StuckForever(s, n, m);
        } else {
          StoppedStays(s, m, n);
        }
        assert false;
      }
    } else {
      assert forall k: nat :: !StuckAt(s, After(s, k));
      var m := StopsFrom(s, 0);
    }
  }

  /** Why positive lengths matter: one header with length 0, whatever its type and whatever follows, is enough. */
  lemma ZeroLengthNeverEnds(version: Byte, ptype: Byte, spare0: Byte, spare1: Byte, rest: seq<Byte>)
    ensures !Ends(HeaderBytes(0, version, ptype, spare0, spare1) + rest)
  {
    hide HeaderBytes, Iterate;
    var header := HeaderBytes(0, version, ptype, spare0, spare1);
    var s := header + rest;
    HeaderFields(0, version, ptype, spare0, spare1, []);
    assert header + [] == header;
    assert s[0..] == s && PeekedHeader(s) == s[..HEADER_SIZE] == header;
    assert StuckAt(s, After(s, 0));
    EndsIffNeverStuck(s);
  }

  // Over every stream the machine is proved on, the skeleton runs as the machine does.

  /** The packet at the cursor is what a peek shows, and an iteration that consumes goes to the next stand. */
  lemma AtPacket(s: seq<Byte>, fs: seq<Frame>, k: nat)
    requires Delivers(s, fs) && k < |fs|
    ensures var at := Stand(|s|, fs, k);
            && at < |s| && PeekedHeader(s[at..]) == fs[k].Header() && Advance(s, at) == Stand(|s|, fs, k + 1)
            && MagicOk(fs[k].Header()) && fs[k].Header()[12] == fs[k].version && fs[k].Header()[13] == fs[k].ptype
  {
    hide RawFrame.Encode, RawFrame.Header, MagicOk, LenField, PeekedHeader, Stand;
    ShowsAt(s, fs, k);
    HeaderOf(fs[k]);
  }

  /** Whether packet k - 1 is still pending after k iterations. */
  predicate Pending(fs: seq<Frame>, k: nat)
    requires k <= |fs|
  {
    k > 0 && Skips(fs[k - 1].version, fs[k - 1].ptype)
  }

  /**
   * After k iterations over a client's packets the skeleton stands where the machine's loop invariant puts the cursor:
   * behind the k packets, or before the last of them while it is pending.
   */
  lemma {:induction false} FollowsPackets(s: seq<Byte>, fs: seq<Frame>, k: nat)
    requires Delivers(s, fs) && k <= |fs|
    ensures After(s, k) == Running(Stand(|s|, fs, if Pending(fs, k) then k - 1 else k), Pending(fs, k))
  {
    hide RawFrame.Header, MagicOk, Advance, PeekedHeader, Skips, Delivers, Stand;
    if k == 0 {
      StandStart(|s|, fs);
    } else {
      FollowsPackets(s, fs, k - 1);
      AtPacket(s, fs, k - 1);
      if Pending(fs, k - 1) {
        AtPacket(s, fs, k - 2);
      }
    }
  }

  /** Behind the last packet it stops. */
  lemma PacketsEnd(s: seq<Byte>, fs: seq<Frame>)
    requires Delivers(s, fs)
    ensures After(s, |fs| + 1) == Stopped && Ends(s)
  {
    hide RawFrame.Header, MagicOk, Advance, PeekedHeader, Skips, Delivers, Stand;
    FollowsPackets(s, fs, |fs|);
    DeliversAt(s, fs, |fs|);
    NothingMore(s[Stand(|s|, fs, |fs|)..], fs[|fs|..]);
    if Pending(fs, |fs|) {
      AtPacket(s, fs, |fs| - 1);
    }
  }

  lemma NothingMore(s: seq<Byte>, fs: seq<Frame>)
    requires Delivers(s, fs) && fs == []
    ensures EndsHere(s)
  {
  }
}
