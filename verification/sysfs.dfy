/** The upward walk of linux/usb.c:72-95 and linux/ieee1394.c:70-93: from a device's sysfs path to the nearest
 *  ancestor directory that holds all the attribute files; and that of linux/pcmcia.c:65-101, which leaves open what it
 *  opens. */
module Sysfs {
  import opened Bytes

  /** strstr(path, needle) != NULL. */
  predicate Contains(path: string, needle: string)
  {
    exists i :: 0 <= i <= |path| - |needle| && Occurs(path, needle, i)
  }

  predicate Occurs(path: string, needle: string, i: nat)
    requires i + |needle| <= |path|
  {
    path[i..i + |needle|] == needle
  }

  lemma ContainsMonotone(path: string, k: nat, needle: string)
    requires k <= |path| && Contains(path[..k], needle)
    ensures Contains(path, needle)
  {
    var i :| 0 <= i <= k - |needle| && Occurs(path[..k], needle, i);
    assert path[..k][i..i + |needle|] == path[i..i + |needle|];
    assert Occurs(path, needle, i);
  }

  /** strrchr(path, '/'). */
  method LastSlash(path: string) returns (at: int)
    ensures -1 <= at < |path|
    ensures at >= 0 ==> path[at] == '/'
    ensures forall i :: at < i < |path| ==> path[i] != '/'
  {
    at := |path| - 1;
    while at >= 0 && path[at] != '/'
      invariant -1 <= at < |path|
      invariant forall i :: at < i < |path| ==> path[i] != '/'
    {
      at := at - 1;
    }
  }

  /** path[..k] is a proper ancestor directory of path: cut at one of its slashes. */
  predicate IsAncestor(path: string, k: nat)
  {
    k < |path| && path[k] == '/'
  }

  /** k2 is the ancestor right below k: the next slash, or the path itself. */
  predicate NextDeeper(path: string, k: nat, k2: nat)
  {
    k < k2 <= |path| && (k2 < |path| ==> path[k2] == '/') && forall i :: k < i < k2 ==> path[i] != '/'
  }

  /** All the files, each readable under the directory. */
  predicate HasAll(readable: string -> bool, dir: string, files: seq<string>)
  {
    forall i :: 0 <= i < |files| ==> readable(dir + "/" + files[i])
  }

  /**
   * A directory the walk may stop at: a non-empty proper ancestor with every file, whose next-deeper path still
   * contains the needle.
   */
  ghost predicate Qualifies(readable: string -> bool, needle: string, files: seq<string>, path: string, k: nat)
  {
    && 0 < k && IsAncestor(path, k) && HasAll(readable, path[..k], files)
    && exists k2: nat :: NextDeeper(path, k, k2) && Contains(path[..k2], needle)
  }

  method CheckFiles(readable: string -> bool, dir: string, files: seq<string>) returns (found: bool)
    ensures found == HasAll(readable, dir, files)
  {
    found := true;
    for i := 0 to |files|
      invariant found == forall j :: 0 <= j < i ==> readable(dir + "/" + files[j])
    {
      if !readable(dir + "/" + files[i]) {
        found := false;
      }
    }
  }

  /** A shorter cut of a cut, and the needle seen from it. */
  lemma DeeperContains(path: string, needle: string, k: nat, len: nat)
    requires k < len <= |path| && IsAncestor(path, k) && (len < |path| ==> path[len] == '/')
    requires exists k2: nat :: NextDeeper(path, k, k2) && Contains(path[..k2], needle)
    ensures Contains(path[..len], needle)
  {
    var k2: nat :| NextDeeper(path, k, k2) && Contains(path[..k2], needle);
    assert k2 <= len;
    assert path[..len][..k2] == path[..k2];
    ContainsMonotone(path[..len], k2, needle);
  }

  /**
   * The loop. `link` is the path truncated in place. It ends, and stops at the deepest directory that qualifies,
   * or reports none exactly when there is none: once the needle is gone from the path it is gone from every
   * shorter one.
   */
  method Walk(readable: string -> bool, needle: string, files: seq<string>, path: string)
    returns (found: bool, link: string)
    requires |needle| > 0
    ensures found ==> link <= path && Qualifies(readable, needle, files, path, |link|)
    ensures found ==> forall k: nat :: |link| < k ==> !Qualifies(readable, needle, files, path, k)
    ensures !found ==> forall k: nat :: !Qualifies(readable, needle, files, path, k)
  {
    link := path;
    found := false;
    assert path[..|path|] == path;
    while Contains(link, needle)
      invariant |link| <= |path| && link == path[..|link|] && (|link| < |path| ==> path[|link|] == '/')
      invariant forall k: nat :: |link| <= k ==> !Qualifies(readable, needle, files, path, k)
      decreases |link|
    {
      var rchr := LastSlash(link);
      if rchr < 0 {
        assert forall k: nat :: k < |link| ==> path[k] == link[k];
        return;
      }
      ghost var longer := |link|;
      assert NextDeeper(path, rchr, longer) && path[..longer] == link;
      assert forall k: nat :: rchr < k < longer ==> !IsAncestor(path, k);
      link := link[..rchr];
      if |link| == 0 {
        return;
      }
      assert link == path[..rchr];
      found := CheckFiles(readable, link, files);
      if found {
        return;
      }
    }
    forall k: nat
      ensures !Qualifies(readable, needle, files, path, k)
    {
      if k < |link| && Qualifies(readable, needle, files, path, k) {
        DeeperContains(path, needle, k, |link|);
      }
    }
  }

  const USB_FILES := ["descriptors", "idProduct", "idVendor"]
  const FIREWIRE_FILES := ["model", "vendor", "guid"]

  method WalkUsb(readable: string -> bool, path: string) returns (found: bool, link: string)
    ensures found <==> exists k: nat :: Qualifies(readable, "usb", USB_FILES, path, k)
    ensures found ==> link <= path && Qualifies(readable, "usb", USB_FILES, path, |link|)
    ensures found ==> forall k: nat :: |link| < k ==> !Qualifies(readable, "usb", USB_FILES, path, k)
  {
    found, link := Walk(readable, "usb", USB_FILES, path);
  }

  method WalkFireWire(readable: string -> bool, path: string) returns (found: bool, link: string)
    ensures found <==> exists k: nat :: Qualifies(readable, "firewire", FIREWIRE_FILES, path, k)
    ensures found ==> link <= path && Qualifies(readable, "firewire", FIREWIRE_FILES, path, |link|)
    ensures found ==> forall k: nat :: |link| < k ==> !Qualifies(readable, "firewire", FIREWIRE_FILES, path, k)
  {
    found, link := Walk(readable, "firewire", FIREWIRE_FILES, path);
  }

  // The PCMCIA walk.

  const DEVICES := "/sys/devices"

  /** A directory's pcmcia_socket: not readable or not opened, or opened, with its first directory entry if any. */
  datatype Socket = Unopened | Listed(entry: Option<string>)

  function CisPath(dir: string, entry: string): string
  {
    dir + "/pcmcia_socket/" + entry + "/cis"
  }

  /** The CIS the walk stops for. */
  predicate HasCis(sockets: string -> Socket, readable: string -> bool, dir: string)
  {
    match sockets(dir)
    case Unopened => false
    case Listed(None) => false
    case Listed(Some(entry)) => readable(CisPath(dir, entry))
  }

  /** An ancestor the walk comes to and whose pcmcia_socket it opens. */
  ghost predicate SocketAt(sockets: string -> Socket, path: string, k: nat)
  {
    && 0 < k && IsAncestor(path, k) && sockets(path[..k]).Listed?
    && exists k2: nat :: NextDeeper(path, k, k2) && Contains(path[..k2], DEVICES)
  }

  ghost function SocketsFrom(sockets: string -> Socket, path: string, lo: nat): set<nat>
  {
    set k: nat | lo <= k < |path| && SocketAt(sockets, path, k)
  }

  lemma NextSocket(sockets: string -> Socket, path: string, k: nat, len: nat)
    requires NextDeeper(path, k, len) && IsAncestor(path, k) && Contains(path[..len], DEVICES)
    ensures SocketAt(sockets, path, k) <==> k > 0 && sockets(path[..k]).Listed?
    ensures |SocketsFrom(sockets, path, k)|
            == |SocketsFrom(sockets, path, len)| + if SocketAt(sockets, path, k) then 1 else 0
  {
    hide Contains;
    assert forall i: nat :: k < i < len ==> !IsAncestor(path, i);
    assert SocketsFrom(sockets, path, k)
           == SocketsFrom(sockets, path, len) + if SocketAt(sockets, path, k) then {k} else {};
  }

  /** No CIS from position `lo` of the path on. */
  ghost predicate NoCisFrom(sockets: string -> Socket, readable: string -> bool, path: string, lo: nat)
  {
    forall k: nat :: lo <= k && SocketAt(sockets, path, k) ==> !HasCis(sockets, readable, path[..k])
  }

  lemma NextNoCis(sockets: string -> Socket, readable: string -> bool, path: string, k: nat, len: nat)
    requires NoCisFrom(sockets, readable, path, len) && NextDeeper(path, k, len) && k < |path|
    ensures NoCisFrom(sockets, readable, path, k + 1)
    ensures !SocketAt(sockets, path, k) || !HasCis(sockets, readable, path[..k]) ==>
              NoCisFrom(sockets, readable, path, k)
  {
    hide HasCis;
    assert forall i: nat :: k < i < len ==> !IsAncestor(path, i);
  }

  /** Nothing is left to visit when the needle or the last slash is gone. */
  lemma WalkEnd(sockets: string -> Socket, readable: string -> bool, path: string, len: nat)
    requires len <= |path| && (len < |path| ==> path[len] == '/') && NoCisFrom(sockets, readable, path, len)
    requires !Contains(path[..len], DEVICES) || forall k: nat :: 0 < k < len ==> path[k] != '/'
    ensures NoCisFrom(sockets, readable, path, 0)
    ensures SocketsFrom(sockets, path, 0) == SocketsFrom(sockets, path, len)
  {
    hide Contains, HasCis;
    forall k: nat | k < len
      ensures !SocketAt(sockets, path, k)
    {
      if SocketAt(sockets, path, k) {
        DeeperContains(path, DEVICES, k, len);
      }
    }
  }

  lemma WalkStart(sockets: string -> Socket, readable: string -> bool, path: string)
    ensures NoCisFrom(sockets, readable, path, |path|) && SocketsFrom(sockets, path, |path|) == {}
    ensures path[..|path|] == path
  {
    hide HasCis;
  }

  lemma CisOrNot(sockets: string -> Socket, readable: string -> bool, dir: string)
    ensures sockets(dir) == Listed(None) ==> !HasCis(sockets, readable, dir)
    ensures forall entry :: sockets(dir) == Listed(Some(entry)) ==>
              HasCis(sockets, readable, dir) == readable(CisPath(dir, entry))
  {
  }

  /** The CIS of a directory can be opened. */
  predicate CisOpens(sockets: string -> Socket, opens: string -> bool, dir: string)
  {
    match sockets(dir)
    case Unopened => false
    case Listed(None) => false
    case Listed(Some(entry)) => opens(CisPath(dir, entry))
  }

  /** What the walk comes to: how many streams it leaves, and the directory it stopped at, if it did. */
  ghost predicate PcmciaOutcome(sockets: string -> Socket, readable: string -> bool, path: string, stop: Option<nat>,
                                left: nat)
  {
    match stop
    case None => NoCisFrom(sockets, readable, path, 0) && left == |SocketsFrom(sockets, path, 0)|
    case Some(k) =>
      && SocketAt(sockets, path, k) && HasCis(sockets, readable, path[..k])
      && NoCisFrom(sockets, readable, path, k + 1) && left == |SocketsFrom(sockets, path, k)|
  }

  /**
   * linux/pcmcia.c:65-101. The walk stops at the deepest directory with a readable CIS. Every pcmcia_socket directory
   * it opened on the way there, or on the whole way when there is none, stays open, and so does the CIS.
   */
  method WalkPcmcia(sockets: string -> Socket, readable: string -> bool, opens: string -> bool, path: string)
    returns (found: bool, streams: nat, ghost stop: Option<nat>, ghost left: nat)
    ensures PcmciaOutcome(sockets, readable, path, stop, left)
    ensures found <==> stop.Some? && stop.value <= |path| && CisOpens(sockets, opens, path[..stop.value])
    ensures streams == left + if found then 1 else 0
  {
    hide SocketAt, SocketsFrom, HasCis, NoCisFrom, Contains, CisPath;
    var link := path;
    found, streams, stop := false, 0, None;
    WalkStart(sockets, readable, path);
    while Contains(link, DEVICES)
      invariant |link| <= |path| && link == path[..|link|] && (|link| < |path| ==> path[|link|] == '/')
      invariant !found && stop == None && streams == |SocketsFrom(sockets, path, |link|)|
      invariant NoCisFrom(sockets, readable, path, |link|)
      decreases |link|
    {
      var rchr := LastSlash(link);
      ghost var longer := |link|;
      assert forall k: nat :: k < longer ==> path[k] == link[k];
      if rchr <= 0 {
        WalkEnd(sockets, readable, path, longer);
        left := streams;
        return;
      }
      NextSocket(sockets, path, rchr, longer);
      NextNoCis(sockets, readable, path, rchr, longer);
      link := link[..rchr];
      assert link == path[..rchr];
      var socket := sockets(link);
      if socket.Unopened? {
        continue;
      }
      streams := streams + 1;
      CisOrNot(sockets, readable, link);
      if socket.entry.None? || !readable(CisPath(link, socket.entry.value)) {
        continue;
      }
      stop, left := Some(rchr), streams;
      if !opens(CisPath(link, socket.entry.value)) {
        return;
      }
      found, streams := true, streams + 1;
      return;
    }
    WalkEnd(sockets, readable, path, |link|);
    left := streams;
  }
}
