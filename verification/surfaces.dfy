/** The legacy control call and the structured requests drive the same
    operations: for equivalent inputs they agree on status, state, report and
    path, and differ only in how the result is framed. */
module Surfaces {
  import opened Zx
  import opened DeviceNames
  import opened ControlPaths
  import opened TestProtocol
  import opened TestDevice
  import opened TestRootDevice

  /** Creating a child through either surface, with a NUL-terminated request
      and a legacy buffer as large as the structured one, gives the same
      status, the same child and the same path; the legacy count also covers
      the terminator. */
  lemma CreateSurfacesAgree(name: ByteString, outBuf: ByteString, add: DeviceAdd)
    requires NUL !in name
    requires |outBuf| >= MAX_DEVICE_PATH_LEN
    ensures var legacy := RootIoctl(CreateDeviceOp, name + [NUL], |name| + 1, outBuf, add);
      var structured := FidlCreateDevice(name, add);
      && legacy.status == structured.status
      && legacy.child == structured.child
      && (legacy.status == OK ==>
            legacy.actual == Some(|structured.path| + 1)
            && legacy.outBuf[..|structured.path| + 1] == structured.path + [NUL])
  {
    CStringOfTerminated(name);
    RootIoctlSuccess(name + [NUL], |name| + 1, outBuf, add);
    RootIoctlFailure(name + [NUL], |name| + 1, outBuf, add);
  }

  /** The structured path buffer always passes the size check: CreateDevice
      through it fails only when the device manager refuses the child. */
  lemma StructuredCreateNeverShort(name: ByteString)
    ensures PathSizeNeeded(DeviceName(name)) <= MAX_DEVICE_PATH_LEN
  {
  }

  /** A legacy run on a zeroed report buffer and a structured run return the
      same status, and on success the same counters. */
  lemma RunTestsSurfacesAgree(d: Device, inBuf: seq<Byte>, invoke: Invoke)
    ensures var legacy := DeviceIoctl(d, RunTestsOp, inBuf, EncodeReport(ZERO_REPORT), invoke);
      var structured := FidlRunTests(d, invoke);
      && legacy.status == structured.status
      && legacy.device == d
      && (legacy.status == OK ==> DecodeReport(legacy.outBuf) == structured.report)
  {
    DecodeEncodeReport(ZERO_REPORT);
  }

  /** Setting the socket through either surface leaves the same device. */
  lemma SetOutputSocketSurfacesAgree(d: Device, h: Handle, outBuf: seq<Byte>, invoke: Invoke)
    ensures var legacy := DeviceIoctl(d, SetOutputSocketOp, EncodeU32(h), outBuf, invoke);
      var structured := FidlSetOutputSocket(d, h);
      legacy.status == structured.status && legacy.device == structured.device
  {
    DecodeEncodeU32(h);
  }

  lemma DestroySurfacesAgree(d: Device, inBuf: seq<Byte>, outBuf: seq<Byte>, invoke: Invoke)
    ensures var legacy := DeviceIoctl(d, DestroyDeviceOp, inBuf, outBuf, invoke);
      var structured := FidlDestroy(d);
      legacy.status == structured.status && legacy.device == structured.device
  {
  }

  /** Scenario: a new child given a callback that reports five tests, all
      passed, returns that report through both surfaces; before the callback
      is set, both surfaces refuse the run. */
  lemma FiveOfFiveScenario(cb: Callback, ctx: nat, invoke: Invoke)
    requires invoke(cb, ctx, ZERO_REPORT) == CallResult(OK, Report(5, 5, 0))
    ensures FidlRunTests(NewDevice(), invoke).status == ERR_NOT_SUPPORTED
    ensures var d := SetTestFunc(NewDevice(), TestFunc(Some(cb), ctx));
      && FidlRunTests(d, invoke) == RunTestsReply(OK, Report(5, 5, 0))
      && DeviceIoctl(d, RunTestsOp, [], EncodeReport(ZERO_REPORT), invoke).status == OK
      && DecodeReport(DeviceIoctl(d, RunTestsOp, [], EncodeReport(ZERO_REPORT), invoke).outBuf) == Report(5, 5, 0)
  {
    var d := SetTestFunc(NewDevice(), TestFunc(Some(cb), ctx));
    RunTestsSurfacesAgree(d, [], invoke);
  }
}
