/** linux/device.c: opening, closing, reopening and reading a device over the kernel's descriptor table. */
module Devices {
  import opened Bytes

  type Path = seq<Byte>

  /** Every errno Linux has fits a byte. */
  type Errno = e: nat | e < 0x100

  const EBADF: Errno := 9
  const EACCES: Errno := 13
  const EROFS: Errno := 30

  /** A DeviceContext as a value. */
  datatype Ctx = Ctx(fd: int, path: Path)

  /**
   * What the process sees of the kernel: the descriptors that opening a device handed out, with those the process
   * began with; the descriptors of streams a backend opened and never closed; and errno. `tick` counts the calls made
   * so far into anything outside this program.
   */
  datatype Os = Os(fds: set<int>, streams: set<int>, errno: Errno, tick: nat)
  {
    function Table(): set<int>
    {
      fds + streams
    }

    predicate SameTable(os: Os)
    {
      fds == os.fds && streams == os.streams
    }
  }

  datatype PathResult = Resolved(path: Path) | Unresolved(errno: Errno)

  datatype ReadResult = ReadOk(data: seq<Byte>) | ReadError(errno: Errno)

  /**
   * The kernel's choices, as functions of the tick: any behaviour over a run is some value of this type.
   * For openError, closeError and seekError 0 is success, anything else the errno. freeFd is the number a new
   * descriptor gets, given those in use. A call that succeeds may leave any errno, as may what runs unseen before it:
   * errnoAfter, from the tick and the errno before.
   */
  datatype Kernel = Kernel(
    realPath: (nat, Path) -> PathResult,
    openError: (nat, Path, bool) -> Errno,
    closeError: (nat, int) -> Errno,
    freeFd: (nat, set<int>) -> int,
    seekError: (nat, int, U64) -> Errno,
    read: (nat, int, U32) -> ReadResult,
    errnoAfter: (nat, Errno) -> Errno)

  /** The kernel after a call that succeeds, or whose failure nobody asks errno about. */
  function Called(k: Kernel, os: Os): (r: Os)
    ensures r.SameTable(os) && r.tick == os.tick + 1
  {
    os.(tick := os.tick + 1, errno := k.errnoAfter(os.tick, os.errno))
  }

  /** The kernel after a call that fails with `e`. */
  function Failed(os: Os, e: Errno): (r: Os)
    ensures r.SameTable(os) && r.tick == os.tick + 1 && r.errno == e
  {
    os.(tick := os.tick + 1, errno := e)
  }

  function FreeFd(used: set<int>, from: int): (fd: int)
    ensures fd >= from && fd !in used
    decreases |used|
  {
    if from in used then FreeFd(used - {from}, from + 1) else from
  }

  /** A free number; 0, 1 and 2 are never given out, and sockets may take any. */
  function NewFd(k: Kernel, os: Os): (fd: int)
    ensures fd > 2 && fd !in os.Table()
  {
    var fd := k.freeFd(os.tick, os.Table());
    if fd > 2 && fd !in os.Table() then fd else FreeFd(os.Table(), 3)
  }

  /** `n` more streams opened and left open. */
  function WithStreams(k: Kernel, os: Os, n: nat): (r: Os)
    ensures r.fds == os.fds && r.errno == os.errno && r.tick == os.tick
    ensures os.streams <= r.streams && |r.streams| == |os.streams| + n
    ensures forall fd :: fd in r.streams && fd !in os.streams ==> fd > 2 && fd !in os.fds
  {
    if n == 0 then os
    else
      var before := WithStreams(k, os, n - 1);
      before.(streams := before.streams + {NewFd(k, before)})
  }

  function SysOpen(k: Kernel, os: Os, path: Path, writable: bool): (r: (Os, int))
    ensures r.0.streams == os.streams
    ensures r.1 >= 0 ==> r.1 > 2 && r.1 !in os.Table() && r.0.fds == os.fds + {r.1}
    ensures r.1 < 0 ==> r.0.fds == os.fds && r.1 == -1
  {
    var e := k.openError(os.tick, path, writable);
    if e == 0 then
      var fd := NewFd(k, os);
      (Called(k, os).(fds := os.fds + {fd}), fd)
    else
      (Failed(os, e), -1)
  }

  /** An open descriptor is released, whoever opened it, even when close reports an error. */
  function SysClose(k: Kernel, os: Os, fd: int): (r: (Os, int))
    ensures r.0.fds == os.fds - {fd} && r.0.streams == os.streams - {fd}
    ensures fd !in os.Table() ==> r.1 < 0
  {
    if fd !in os.Table() then (Failed(os, EBADF), -1)
    else
      var e := k.closeError(os.tick, fd);
      var os' := if e == 0 then Called(k, os) else Failed(os, e);
      (os'.(fds := os.fds - {fd}, streams := os.streams - {fd}), if e == 0 then 0 else -1)
  }

  /** The open of DeviceOpen and ReOpen: read-write first, read-only when that is not permitted. */
  function OpenEither(k: Kernel, os: Os, path: Path): (r: (Os, int))
    ensures r.0.streams == os.streams
    ensures r.1 >= 0 ==> r.1 > 2 && r.1 !in os.Table() && r.0.fds == os.fds + {r.1}
    ensures r.1 < 0 ==> r.0.fds == os.fds && r.1 == -1
  {
    var first := SysOpen(k, os, path, true);
    if first.1 < 0 && (first.0.errno == EACCES || first.0.errno == EROFS)
    then SysOpen(k, first.0, path, false)
    else first
  }

  function OpenPath(k: Kernel, os: Os, path: Path): Path
  {
    match k.realPath(os.tick, path) case Resolved(p) => p case Unresolved(_) => path
  }

  /** The kernel after realpath, which sets errno when it fails. */
  function AfterRealPath(k: Kernel, os: Os, path: Path): (r: Os)
    ensures r.SameTable(os) && r.tick == os.tick + 1
  {
    var r := k.realPath(os.tick, path);
    if r.Unresolved? then Failed(os, r.errno) else Called(k, os)
  }

  /** strncpy into a char[4096]. */
  function Stored(path: Path): Path
  {
    path[..Min(|path|, 4096)]
  }

  function Opened(k: Kernel, os: Os, path: Path): (r: (Os, Option<Ctx>))
    ensures r.0.streams == os.streams
    ensures r.1.Some? ==> r.1.value.fd > 2 && r.1.value.fd !in os.Table() && r.0.fds == os.fds + {r.1.value.fd}
    ensures r.1.None? ==> r.0.fds == os.fds
  {
    var resolved := OpenPath(k, os, path);
    var outcome := OpenEither(k, AfterRealPath(k, os, path), resolved);
    (outcome.0, if outcome.1 <= 0 then None else Some(Ctx(outcome.1, Stored(resolved))))
  }

  /** A device opens exactly when it can be opened for writing or, that being forbidden, for reading. */
  lemma OpensWhen(k: Kernel, os: Os, path: Path)
    ensures var p, t := OpenPath(k, os, path), os.tick + 1;
            Opened(k, os, path).1.Some? <==>
              k.openError(t, p, true) == 0
              || (k.openError(t, p, true) in {EACCES, EROFS} && k.openError(t + 1, p, false) == 0)
  {
  }

  /**
   * DeviceOpen leaves errno 0 exactly when it opens the device and the open that succeeded, and with it all that ran
   * before, left errno 0: after a failure errno is that of the last open tried.
   */
  lemma OpenLeavesNoErrno(k: Kernel, os: Os, path: Path)
    ensures var p, before := OpenPath(k, os, path), AfterRealPath(k, os, path);
            var e := k.openError(before.tick, p, true);
            Opened(k, os, path).0.errno == 0 <==>
              || (e == 0 && k.errnoAfter(before.tick, before.errno) == 0)
              || (e in {EACCES, EROFS} && k.openError(before.tick + 1, p, false) == 0
                  && k.errnoAfter(before.tick + 1, e) == 0)
  {
  }

  function Closed(k: Kernel, os: Os, ctx: Option<Ctx>): (r: Os)
    ensures r.fds == if ctx.Some? then os.fds - {ctx.value.fd} else os.fds
    ensures r.streams == if ctx.Some? then os.streams - {ctx.value.fd} else os.streams
  {
    if ctx.None? then os else SysClose(k, os, ctx.value.fd).0
  }

  datatype ReOpenResult = ReOpenResult(os: Os, ctx: Option<Ctx>, ret: int, closeFailed: U32)

  function ReOpened(k: Kernel, os: Os, ctx: Option<Ctx>): (r: ReOpenResult)
    ensures r.ctx.Some? == ctx.Some? && (ctx.Some? ==> r.ctx.value.path == ctx.value.path)
  {
    if ctx.None? then ReOpenResult(os, ctx, -1, 0)
    else
      var closed := SysClose(k, os, ctx.value.fd);
      if closed.1 < 0 then ReOpenResult(closed.0, ctx, closed.0.errno, 1)
      else
        var outcome := OpenEither(k, closed.0, ctx.value.path);
        ReOpenResult(outcome.0, Some(ctx.value.(fd := outcome.1)),
                     if outcome.1 <= 0 then outcome.0.errno else 0, 0)
  }

  /** After a failed open errno is that of the last open tried; a device that opens stands under its resolved path. */
  lemma OpenResult(k: Kernel, os: Os, path: Path)
    ensures var p := OpenPath(k, os, path);
            var e, e2 := k.openError(os.tick + 1, p, true), k.openError(os.tick + 2, p, false);
            var r := Opened(k, os, path);
            && (r.1.None? ==> r.0.errno == if e == 13 || e == 30 then e2 else e)
            && (r.1.Some? ==> r.1.value.path == p[..Min(|p|, 4096)])
  {
  }

  /**
   * REOPEN succeeds exactly when the close does and then one of the two opens of the path the context was opened
   * under; its result is 0 or the errno of what failed.
   */
  lemma ReOpensWhen(k: Kernel, os: Os, ctx: Ctx)
    ensures var r, t, open := ReOpened(k, os, Some(ctx)), os.tick, ctx.fd in os.Table();
            var c := if open then k.closeError(t, ctx.fd) else 9;
            var e, e2 := k.openError(t + 1, ctx.path, true), k.openError(t + 2, ctx.path, false);
            && (r.closeFailed != 0 <==> c != 0)
            && r.ret == (if c != 0 then c else if e == 13 || e == 30 then e2 else e)
            && r.ctx.Some? && r.ctx.value.path == ctx.path
            && (r.ret == 0 ==> r.ctx.value.fd > 2 && r.ctx.value.fd in r.os.fds)
  {
  }

  /** A read buffer of `length` bytes, zeroed before, with what the kernel read in front. */
  function ReadInto(length: nat, data: seq<Byte>): (s: seq<Byte>)
    ensures |s| == length
  {
    if |data| <= length then data + Zeros(length - |data|) else data[..length]
  }

  datatype OsReadResult = OsReadResult(os: Os, ret: int, data: seq<Byte>)

  function OsReadSpec(k: Kernel, os: Os, ctx: Option<Ctx>, offset: U64, length: U32): (r: OsReadResult)
    ensures |r.data| == length && r.os.SameTable(os)
  {
    if ctx.None? then OsReadResult(os, -1, Zeros(length))
    else
      var e := k.seekError(os.tick, ctx.value.fd, offset);
      if e != 0 then OsReadResult(Failed(os, e), e, Zeros(length))
      else
        var os1 := Called(k, os);
        match k.read(os1.tick, ctx.value.fd, length)
        case ReadOk(data) => OsReadResult(Called(k, os1), 0, ReadInto(length, data))
        case ReadError(errno) => OsReadResult(Failed(os1, errno), errno, Zeros(length))
  }

  /** The heap object DeviceOpen hands out. */
  class DeviceContext {
    var fd: int
    var path: Path

    constructor (fd: int, path: Path)
      ensures this.fd == fd && this.path == path
    {
      this.fd, this.path := fd, path;
    }

    function Value(): Ctx
      reads this
    {
      Ctx(fd, path)
    }
  }

  function ValueOf(ctx: DeviceContext?): Option<Ctx>
    reads ctx
  {
    if ctx == null then None else Some(ctx.Value())
  }

  /** linux/device.c:33-69. */
  method DeviceOpen(k: Kernel, os: Os, devicePath: Path) returns (os': Os, ctx: DeviceContext?)
    ensures (os', ValueOf(ctx)) == Opened(k, os, devicePath)
    ensures ctx != null ==> fresh(ctx)
  {
    var path := devicePath;
    var resolved := k.realPath(os.tick, devicePath);
    if resolved.Resolved? {
      path := resolved.path;
    }
    var (os1, fd) := SysOpen(k, AfterRealPath(k, os, devicePath), path, true);
    if fd < 0 && (os1.errno == EACCES || os1.errno == EROFS) {
      var again := SysOpen(k, os1, path, false);
      os1, fd := again.0, again.1;
    }
    if fd <= 0 {
      return os1, null;
    }
    ctx := new DeviceContext(fd, Stored(path));
    os' := os1;
  }

  /** linux/device.c:71-80. */
  method DeviceClose(k: Kernel, os: Os, ctx: DeviceContext?) returns (os': Os)
    ensures os' == Closed(k, os, ValueOf(ctx))
  {
    if ctx == null {
      return os;
    }
    var closed := SysClose(k, os, ctx.fd);
    os' := closed.0;
  }

  /** linux/device.c:355-376. */
  method ReOpen(k: Kernel, os: Os, ctx: DeviceContext?) returns (os': Os, ret: int, closeFailed: U32)
    modifies ctx
    ensures ReOpenResult(os', ValueOf(ctx), ret, closeFailed) == ReOpened(k, os, old(ValueOf(ctx)))
  {
    closeFailed := 0;
    if ctx == null {
      return os, -1, 0;
    }
    var (os1, closed) := SysClose(k, os, ctx.fd);
    if closed < 0 {
      return os1, os1.errno, 1;
    }
    var (os2, fd) := SysOpen(k, os1, ctx.path, true);
    ctx.fd := fd;
    if ctx.fd < 0 && (os2.errno == EACCES || os2.errno == EROFS) {
      var again := SysOpen(k, os2, ctx.path, false);
      os2, ctx.fd := again.0, again.1;
    }
    return os2, if ctx.fd <= 0 then os2.errno else 0, 0;
  }

  /** linux/device.c:378-396, into the caller's zeroed buffer. */
  method OsRead(k: Kernel, os: Os, ctx: DeviceContext?, buffer: array<Byte>, offset: U64, length: U32)
    returns (os': Os, ret: int)
    requires buffer.Length == length && buffer[..] == Zeros(length)
    modifies buffer
    ensures OsReadResult(os', ret, buffer[..]) == OsReadSpec(k, os, ValueOf(ctx), offset, length)
  {
    if ctx == null {
      return os, -1;
    }
    var e := k.seekError(os.tick, ctx.fd, offset);
    if e != 0 {
      return Failed(os, e), e;
    }
    os' := Called(k, os);
    match k.read(os'.tick, ctx.fd, length)
    case ReadError(errno) =>
      return Failed(os', errno), errno;
    case ReadOk(data) =>
      os' := Called(k, os');
      var n := Min(|data|, length);
      assert buffer[..] == Zeros(length);
      forall i | 0 <= i < n {
        buffer[i] := data[i];
      }
      assert buffer[..] == ReadInto(length, data);
      ret := 0;
  }
}
