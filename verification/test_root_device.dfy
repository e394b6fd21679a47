/** The root test device: creates leaf children on request, through the legacy
    control call and through the structured CreateDevice request. */
module TestRootDevice {
  import opened Zx
  import opened DeviceNames
  import opened ControlPaths
  import opened TestProtocol
  import TestDevice

  /** The device manager's answer when a child is added under a name (DdkAdd):
      OK when it now owns the child, an error status otherwise. */
  type DeviceAdd = ByteString -> Status

  /** A child the device manager has taken ownership of. */
  datatype Child = Child(name: ByteString, device: TestDevice.Device)

  /** Everything CreateDevice leaves behind: its status, the name it asked the
      device manager to add (None when it never asked), the child now owned by
      the device manager, the caller's path buffer, and the path length it
      reported (None when it wrote none). */
  datatype Created = Created(
    status: Status,
    addRequested: Option<ByteString>,
    child: Option<Child>,
    pathOut: ByteString,
    pathActual: Option<nat>)

  /** The smallest path buffer CreateDevice accepts for `devname`: exactly
      room for the child path and its terminator. */
  function PathSizeNeeded(devname: ByteString): (n: nat)
    ensures n == |ChildPath(devname)| + 1
  {
    |devname| + CONTROL_DEVICE_SIZE + 1
  }

  /** Creates a child for the requested `name`, writing its path into `pathOut`
      (whose length is the caller's `path_size`). */
  function CreateDevice(name: ByteString, pathOut: ByteString, add: DeviceAdd): (r: Created)
    ensures |r.pathOut| == |pathOut|
    ensures var devname := DeviceName(name);
      |pathOut| < PathSizeNeeded(devname) ==>
        r == Created(ERR_BUFFER_TOO_SMALL, None, None, pathOut, None)
    ensures var devname := DeviceName(name);
      |pathOut| >= PathSizeNeeded(devname) ==>
        r.addRequested == Some(devname) && r.status == add(devname)
    ensures r.status != OK ==> r.child.None? && r.pathOut == pathOut && r.pathActual.None?
    ensures var devname := DeviceName(name); var path := ChildPath(devname);
      r.status == OK ==>
        && r.child == Some(Child(devname, TestDevice.NewDevice()))
        && r.pathActual == Some(|path|)
        && |path| < |pathOut|
        && r.pathOut[..|path| + 1] == path + [NUL]
        && CString(r.pathOut) == path
  {
    var devname := DeviceName(name);
    if |pathOut| < PathSizeNeeded(devname) then
      Created(ERR_BUFFER_TOO_SMALL, None, None, pathOut, None)
    else
      var status := add(devname);
      if status != OK then
        Created(status, Some(devname), None, pathOut, None)
      else
        var path := ChildPath(devname);
        ChildPathHasNoNul(devname);
        var f := Snprintf(pathOut, path);
        Created(OK, Some(devname), Some(Child(devname, TestDevice.NewDevice())), f.buf, Some(f.count))
  }

  /** The buffer size check comes before the device manager is asked for
      anything, so a short buffer creates no device at all. */
  lemma ShortBufferCreatesNothing(name: ByteString, pathOut: ByteString, add: DeviceAdd)
    requires |pathOut| < |DeviceName(name)| + CONTROL_DEVICE_SIZE + 1
    ensures var r := CreateDevice(name, pathOut, add);
      r.status == ERR_BUFFER_TOO_SMALL && r.addRequested.None? && r.child.None?
  {
  }

  /** A refusal from the device manager is returned as it is, and no path
      or length is written. */
  lemma AddFailurePropagates(name: ByteString, pathOut: ByteString, add: DeviceAdd)
    requires |pathOut| >= |DeviceName(name)| + CONTROL_DEVICE_SIZE + 1
    requires add(DeviceName(name)) != OK
    ensures var r := CreateDevice(name, pathOut, add);
      r.status == add(DeviceName(name)) && r.child.None? && r.pathOut == pathOut && r.pathActual.None?
  {
  }

  /** The reply of the root's legacy control call. */
  datatype RootReply = RootReply(status: Status, child: Option<Child>, outBuf: ByteString, actual: Option<nat>)

  /** The root's post-processing of a successful create: when the path filled
      the buffer, the last byte is overwritten with a terminator; otherwise
      the reported count grows by one for the terminator. */
  function FinishCreate(c: Created): (r: RootReply)
    requires c.status == OK ==> c.pathActual.Some? && 0 < c.pathActual.value
    ensures r.status == c.status && r.child == c.child && |r.outBuf| == |c.pathOut|
    ensures c.status == OK && c.pathActual.value == |c.pathOut| ==>
      && r.outBuf[..|c.pathOut| - 1] == c.pathOut[..|c.pathOut| - 1]
      && r.outBuf[|c.pathOut| - 1] == NUL && r.actual == c.pathActual
    ensures c.status == OK && c.pathActual.value != |c.pathOut| ==>
      r.outBuf == c.pathOut && r.actual == Some(c.pathActual.value + 1)
    ensures c.status != OK ==> r.outBuf == c.pathOut && r.actual == c.pathActual
  {
    if c.status != OK then RootReply(c.status, c.child, c.pathOut, c.pathActual)
    else if c.pathActual.value == |c.pathOut| then
      RootReply(OK, c.child, c.pathOut[|c.pathOut| - 1 := NUL], c.pathActual)
    else
      RootReply(OK, c.child, c.pathOut, Some(c.pathActual.value + 1))
  }

  /** The root device's legacy control call. `inBuf` holds the bytes at the
      input pointer; the requested name is read from them up to the first
      NUL, and `inlen` plays no part. */
  function RootIoctl(op: IoctlOp, inBuf: ByteString, inlen: nat, outBuf: ByteString, add: DeviceAdd): (r: RootReply)
    ensures op != CreateDeviceOp ==> r == RootReply(ERR_NOT_SUPPORTED, None, outBuf, None)
    ensures |r.outBuf| == |outBuf|
  {
    if op != CreateDeviceOp then RootReply(ERR_NOT_SUPPORTED, None, outBuf, None)
    else FinishCreate(CreateDevice(CString(inBuf), outBuf, add))
  }

  /** The size check leaves room for the terminator, so a successful create
      never reports a path that fills the buffer: the overwrite branch of
      FinishCreate is dead. */
  lemma ExactFillUnreachable(name: ByteString, pathOut: ByteString, add: DeviceAdd)
    ensures var c := CreateDevice(name, pathOut, add);
      c.status == OK ==> c.pathActual.value < |pathOut|
  {
  }

  /** A successful legacy create reports the path and its terminator, and
      that count fits in the caller's buffer. */
  lemma RootIoctlSuccess(inBuf: ByteString, inlen: nat, outBuf: ByteString, add: DeviceAdd)
    ensures var r := RootIoctl(CreateDeviceOp, inBuf, inlen, outBuf, add);
      var devname := DeviceName(CString(inBuf));
      var path := ChildPath(devname);
      r.status == OK ==>
        && r.child == Some(Child(devname, TestDevice.NewDevice()))
        && r.actual == Some(|path| + 1)
        && |path| + 1 <= |outBuf|
        && r.outBuf[..|path| + 1] == path + [NUL]
  {
    var c := CreateDevice(CString(inBuf), outBuf, add);
    ExactFillUnreachable(CString(inBuf), outBuf, add);
    assert RootIoctl(CreateDeviceOp, inBuf, inlen, outBuf, add) == FinishCreate(c);
  }

  /** A failed legacy create (short buffer or refusal from the device
      manager) returns the status alone and writes nothing. */
  lemma RootIoctlFailure(inBuf: ByteString, inlen: nat, outBuf: ByteString, add: DeviceAdd)
    ensures var r := RootIoctl(CreateDeviceOp, inBuf, inlen, outBuf, add);
      var devname := DeviceName(CString(inBuf));
      && (r.status != OK ==> r.child.None? && r.outBuf == outBuf && r.actual.None?)
      && (|outBuf| < PathSizeNeeded(devname) ==> r.status == ERR_BUFFER_TOO_SMALL)
      && (|outBuf| >= PathSizeNeeded(devname) ==> r.status == add(devname))
  {
  }

  lemma RootIoctlIgnoresInlen(op: IoctlOp, inBuf: ByteString, inlen1: nat, inlen2: nat, outBuf: ByteString, add: DeviceAdd)
    ensures RootIoctl(op, inBuf, inlen1, outBuf, add) == RootIoctl(op, inBuf, inlen2, outBuf, add)
  {
  }

  /** The structured CreateDevice reply: a status and the child's path. */
  datatype CreateReply = CreateReply(status: Status, path: ByteString, child: Option<Child>)

  /** The structured CreateDevice request: the name arrives with its length,
      and the path is formatted into a MAX_DEVICE_PATH_LEN buffer; the reply
      carries as many path bytes as CreateDevice reported (none on failure).
      The buffer starts uninitialised; FidlCreateAnyBuffer shows that its
      initial contents never reach the reply. */
  function FidlCreateDevice(name: ByteString, add: DeviceAdd): (r: CreateReply)
    ensures r.status == add(DeviceName(name))
    ensures r.status == OK ==>
      r.path == ChildPath(DeviceName(name)) && r.child == Some(Child(DeviceName(name), TestDevice.NewDevice()))
    ensures r.status != OK ==> r.path == "" && r.child.None?
  {
    var c := CreateDevice(name, seq(MAX_DEVICE_PATH_LEN, _ => NUL), add);
    var size := if c.pathActual.Some? then c.pathActual.value else 0;
    CreateReply(c.status, c.pathOut[..size], c.child)
  }

  /** Scenario: a child requested as "foo.so" is registered as "foo" and is
      reached at "/dev/test/test/foo". */
  lemma CreateFooSo(add: DeviceAdd)
    requires add("foo") == OK
    ensures FidlCreateDevice("foo.so", add) == CreateReply(OK, "/dev/test/test/foo", Some(Child("foo", TestDevice.NewDevice())))
  {
    FooSoName();
    FooPath();
  }

  /** The name step of the scenario: ".so" is stripped from "foo.so". */
  lemma FooSoName()
    ensures DeviceName("foo.so") == "foo"
  {
    var foo: ByteString := "foo";
    DeviceNameStripsSo(foo);
    assert "foo.so" == foo + SO_SUFFIX;
  }

  /** The path step of the scenario: "foo" lives at "/dev/test/test/foo". */
  lemma FooPath()
    ensures ChildPath("foo") == "/dev/test/test/foo"
  {
  }

  /** Whatever the structured path buffer held beforehand, the reply is the
      same. */
  lemma FidlCreateAnyBuffer(name: ByteString, buf: ByteString, add: DeviceAdd)
    requires |buf| == MAX_DEVICE_PATH_LEN
    ensures var c := CreateDevice(name, buf, add);
      var size := if c.pathActual.Some? then c.pathActual.value else 0;
      size <= |c.pathOut| && CreateReply(c.status, c.pathOut[..size], c.child) == FidlCreateDevice(name, add)
  {
  }
}
