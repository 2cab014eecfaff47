/** list_devices.c, and the list-to-packet copy of worker.c:342-372. */
module ListDevices {
  import opened Bytes
  import opened Layout
  import opened Endian
  import opened Packets
  import opened Backend
  import opened Buffers

  /** DeviceInfoList: a singly linked list of device records. */
  class Node {
    const info: DeviceInfo
    const next: Node?
    ghost const list: seq<DeviceInfo>
    ghost const nodes: set<Node>

    constructor (info: DeviceInfo, next: Node?)
      requires next != null ==> next.Valid()
      ensures Valid() && this.next == next
      ensures list == [info] + ListOf(next) && nodes == {this} + NodesOf(next)
    {
      this.info, this.next := info, next;
      list := [info] + ListOf(next);
      nodes := {this} + NodesOf(next);
    }

    ghost predicate Valid()
      decreases nodes
    {
      && this in nodes
      && list == [info] + ListOf(next)
      && nodes == {this} + NodesOf(next)
      && (next != null ==> this !in next.nodes && next.nodes < nodes && next.Valid())
    }
  }

  ghost function ListOf(start: Node?): seq<DeviceInfo>
  {
    if start == null then [] else start.list
  }

  ghost function NodesOf(start: Node?): set<Node>
  {
    if start == null then {} else start.nodes
  }

  ghost predicate ValidList(start: Node?)
  {
    start != null ==> start.Valid()
  }

  /** The list a platform's ListDevices hands over, freshly allocated. */
  method MakeList(devices: seq<DeviceInfo>) returns (start: Node?)
    ensures ValidList(start) && ListOf(start) == devices && fresh(NodesOf(start))
  {
    start := null;
    var i := |devices|;
    while i > 0
      invariant 0 <= i <= |devices|
      invariant ValidList(start) && ListOf(start) == devices[i..] && fresh(NodesOf(start))
    {
      i := i - 1;
      start := new Node(devices[i], start);
      assert devices[i..] == [devices[i]] + devices[i + 1..];
    }
  }

  /** list_devices.c:42-55: the counter is a uint16_t. */
  method DeviceInfoListCount(start: Node?) returns (count: U16)
    requires ValidList(start)
    ensures count == |ListOf(start)| % 0x1_0000
  {
    count := 0;
    var current := start;
    ghost var seen: nat := 0;
    while current != null
      invariant ValidList(current)
      invariant seen + |ListOf(current)| == |ListOf(start)|
      invariant count == seen % 0x1_0000
      decreases |ListOf(current)|
    {
      current := current.next;
      seen := seen + 1;
      count := if count == 0xFFFF then 0 else count + 1;
    }
  }

  /** list_devices.c:30-40: frees every node of the list once; `live` is the set of blocks allocated. */
  method FreeDeviceInfoList(start: Node?, ghost live: set<object>) returns (ghost live': set<object>)
    requires ValidList(start) && NodesOf(start) <= live
    ensures live' == live - NodesOf(start)
  {
    var rest := start;
    live' := live;
    while rest != null
      invariant ValidList(rest) && NodesOf(rest) <= live' && NodesOf(rest) <= NodesOf(start)
      invariant live' - NodesOf(rest) == live - NodesOf(start)
      decreases |ListOf(rest)|
    {
      ghost var current: object := rest;
      assert current in live';
      rest := rest.next;
      live' := live' - {current};
    }
  }

  function ListBody(devices: seq<DeviceInfo>): (s: seq<Byte>)
  {
    LeBytes(|devices| % 0x1_0000, 2) + Flatten(devices)
  }

  lemma {:induction false} FlattenLength(devices: seq<DeviceInfo>)
    ensures |Flatten(devices)| == |devices| * DEVICE_INFO_SIZE
  {
    if devices != [] {
      FlattenLength(devices[1..]);
    }
  }

  function With(front: seq<Byte>, devices: seq<DeviceInfo>): seq<Byte>
  {
    front + Flatten(devices)
  }

  lemma WithNext(front: seq<Byte>, devices: seq<DeviceInfo>, k: nat)
    requires k < |devices|
    ensures With(front, devices[..k]) + devices[k] == With(front, devices[..k + 1])
    ensures devices[k] == devices[k..][0] && devices[k + 1..] == devices[k..][1..]
  {
    FlattenSnoc(devices[..k], devices[k]);
    assert devices[..k + 1] == devices[..k] + [devices[k]];
  }

  lemma WithAll(front: seq<Byte>, devices: seq<DeviceInfo>)
    ensures With(front, devices[..|devices|]) == front + Flatten(devices)
  {
    assert devices[..|devices|] == devices;
  }

  /** worker.c:361-366: the records, one behind the other; `off` ends at the size of the packet. */
  method CopyList(out: array<Byte>, off: nat, start: Node?, ghost g: Fill) returns (end: nat, ghost g': Fill)
    requires ValidList(start) && g.Over(out) && off == HEADER_SIZE + |g.body|
    requires off + |ListOf(start)| * DEVICE_INFO_SIZE <= out.Length
    modifies out
    ensures end == off + |ListOf(start)| * DEVICE_INFO_SIZE
    ensures g' == g.(body := g.body + Flatten(ListOf(start))) && g'.Over(out)
  {
    ghost var k: nat, devices := 0, ListOf(start);
    var current := start;
    end, g' := off, g;
    assert With(g.body, devices[..0]) == g.body;
    hide With, Fill.Over;
    while current != null
      invariant ValidList(current) && k <= |devices| && ListOf(current) == devices[k..]
      invariant g' == g.(body := With(g.body, devices[..k])) && g'.Over(out)
      invariant end == off + k * DEVICE_INFO_SIZE && end == HEADER_SIZE + |g'.body|
      decreases |ListOf(current)|
    {
      WithNext(g.body, devices, k);
      g' := StoreBytes(out, end, current.info, g');
      k := k + 1;
      current := current.next;
      end := end + DEVICE_INFO_SIZE;
    }
    WithAll(g.body, devices);
  }

  /**
   * A client cutting the reply at 18 bytes and then every 2052 finds the device records in list order, and
   * `devices` says how many, exactly when there are fewer than 65536: with more, the count and the allocation
   * made from it fall short of the bytes copied.
   */
  lemma ListReplyCut(devices: seq<DeviceInfo>)
    ensures |ListBody(devices)| == 2 + |devices| * DEVICE_INFO_SIZE
    ensures forall i :: 0 <= i < |devices| ==>
              && 2 + i * DEVICE_INFO_SIZE + DEVICE_INFO_SIZE <= |ListBody(devices)|
              && ListBody(devices)[2 + i * DEVICE_INFO_SIZE..2 + i * DEVICE_INFO_SIZE + DEVICE_INFO_SIZE] == devices[i]
    ensures U16At(ListBody(devices), 0) == |devices| <==> |devices| < 0x1_0000
    ensures 2 + U16At(ListBody(devices), 0) as int * DEVICE_INFO_SIZE == |ListBody(devices)| <==> |devices| < 0x1_0000
  {
    hide LeBytes, FromLe;
    FlattenLength(devices);
    var s := ListBody(devices);
    forall i | 0 <= i < |devices|
      ensures 2 + i * DEVICE_INFO_SIZE + DEVICE_INFO_SIZE <= |s|
      ensures s[2 + i * DEVICE_INFO_SIZE..2 + i * DEVICE_INFO_SIZE + DEVICE_INFO_SIZE] == devices[i]
    {
      FlattenBlock(devices, DEVICE_INFO_SIZE, i);
      SliceOfSlice(s, 2, |s|, i * DEVICE_INFO_SIZE, i * DEVICE_INFO_SIZE + DEVICE_INFO_SIZE);
      assert s[2..|s|] == Flatten(devices);
    }
    assert s[0..2] == LeBytes(|devices| % 0x1_0000, 2);
    Pow256Values();
    FromLeBytes(|devices| % 0x1_0000, 2);
  }
}
