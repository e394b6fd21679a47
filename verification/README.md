# Zircon test driver: child creation and control dispatch

This project models the core of Zircon's test driver (`system/dev/misc/test/test.cpp`).
The driver has a root device, published as `/dev/test/test`, that creates child
devices on request. Each child is a leaf test device. It holds an output socket
and a registered test function. It can run that function and report a
`test_report_t` (tests, successes, failures), and it can ask the device manager
to remove it. Both kinds of device are driven through two surfaces:

- a legacy control call: an operation code plus raw input and output buffers;
- structured request/response messages: `SetOutputSocket`, `RunTests`,
  `Destroy` and `CreateDevice`.

The model is written as pure functions over immutable values:

- `Zx`: status codes, fixed-width integers, handles, and the little-endian
  layout of a 32-bit word.
- `DeviceNames`: how a requested name becomes the registered device name. This
  covers the bounded copy, the default name `"testdev"`, truncation to
  `ZX_DEVICE_NAME_MAX` (31) bytes, the NUL-terminated read-back, and stripping
  of one trailing `".so"`.
- `ControlPaths`: the child path `"/dev/test/test/<name>"` and the `snprintf`
  call that writes it into the caller's buffer.
- `TestProtocol`: the operation codes, `test_report_t` and its 12-byte layout,
  and `test_func_t`.
- `TestDevice`: the leaf device state. This covers the setters, `RunTests`,
  `Destroy`, the leaf legacy control call, and the structured adapters.
- `TestRootDevice`: `CreateDevice`, the root legacy control call with its
  count post-processing, and the structured `CreateDevice`.
- `Surfaces`: lemmas stating that the two surfaces agree on equivalent inputs.

Collaborators the driver calls but does not implement become parameters:

- The device manager's `DdkAdd` is a function `ByteString -> Status`. It says
  whether a child added under a given name is accepted.
- `DdkRemove` is recorded as a count of remove requests on the device.
- The test callback is an opaque identity together with an `Invoke` function.
  `Invoke` maps (callback, context, report buffer) to the status and the report
  buffer the callback leaves behind.
- Names and character buffers are `ByteString`s: sequences of byte-valued
  characters (`CChar`). Raw leaf buffers are sequences of `Byte`s.
- Caller buffers are sequences whose lengths are the call's `inlen`, `outlen`
  or `path_size`, except the root's legacy input (see `## Left out`).

The following constants come from Zircon headers that are not part of this
model. The model uses their values:

- `ZX_DEVICE_NAME_MAX` = 31
- `fuchsia_device_test_CONTROL_DEVICE` = `"/dev/test/test"` (so its `sizeof` is 15)
- `MAX_DEVICE_PATH_LEN` = 1024
- `sizeof(zx_handle_t)` = 4
- `sizeof(test_report_t)` = 12
- `ZX_OK` = 0, `ZX_ERR_NOT_SUPPORTED` = -2, `ZX_ERR_INVALID_ARGS` = -10,
  `ZX_ERR_BUFFER_TOO_SMALL` = -15

## Edge cases in the code

- Appending `".so"` to a request does not always give the same registered name
  (test.cpp:166-176). It does for a non-empty NUL-free `n` that does not end
  in `".so"` and whose `n + ".so"` fits in 31 bytes
  (`DeviceNames.DeviceNameIgnoresFittingSo`, from `DeviceNames.DeviceNameStripsSo`
  and `DeviceNames.DeviceNameKeepsPlainName`), and for a NUL-free `n` of 31
  bytes or more, where both requests are cut to the same 31 bytes
  (`DeviceNames.DeviceNameSoBeyondCut`). It does not in these cases:
  - `n` is empty. The request `".so"` registers the empty name, while the empty
    request registers `"testdev"` (`DeviceNames.BareSuffixGivesEmptyName`).
  - A NUL-free `n` is 29 or 30 bytes long. The cut at 31 bytes leaves `".s"`
    or `"."` in the name (`DeviceNames.DeviceNameSoStraddlesCut`).
  - A NUL-free `n` of at most 28 bytes ends in `".so"`. Only the appended
    suffix is removed from `n + ".so"`, while `n` alone loses its own
    (`DeviceNames.DeviceNameDoubleSo`).
- A successful legacy create always reports the path length plus one
  (test.cpp:211). The size check at line 178 leaves room for the terminator,
  so the exact-fill branch at lines 206-208 cannot run
  (`TestRootDevice.ExactFillUnreachable`).
- Nothing in the driver checks whether a device has been destroyed.
  `TestDestroy` (test.cpp:91-93) only calls `DdkRemove`, recorded as one more
  entry in `removeRequests`. Any later rejection comes from the device manager.
- The structured `RunTests` reply carries the callback's counters only when its
  status is `ZX_OK`, and zeros otherwise (test.cpp:108-112). The legacy call
  leaves in the caller's buffer whatever the callback wrote there, and reports
  12 bytes whatever the status (test.cpp:145-146).

## Model

| member | source | states |
|---|---|---|
| DeviceNames.CString | system/dev/misc/test/test.cpp:201 | a NUL-terminated read of a buffer gives the longest NUL-free prefix, stopping at the first NUL or at the end of the buffer |
| DeviceNames.TruncatedName | system/dev/misc/test/test.cpp:166-172 | an empty request gives "testdev"; otherwise the result is a NUL-free prefix of the request, at most 31 bytes, ending at min(31, length) or at the request's first NUL |
| DeviceNames.StripSo | system/dev/misc/test/test.cpp:173-176 | a name ending in ".so" loses exactly that one suffix; any other name, including one shorter than three bytes, is kept |
| DeviceNames.StripSoAsWritten | system/dev/misc/test/test.cpp:174-175 | the suffix check as written reads before the name buffer exactly when the name is shorter than three bytes; otherwise it agrees with StripSo |
| DeviceNames.ShortNameReadsBeforeBuffer | system/dev/misc/test/test.cpp:174-175 | the requests "ab" and "\0x" make the suffix check start 1 and 3 bytes before the buffer |
| DeviceNames.DeviceNameAsWritten | system/dev/misc/test/test.cpp:166-176 | as written, the name computation reads before `devname` exactly when the copied name is shorter than three bytes. An empty request, which is given "testdev", never does. Otherwise it gives the same name as DeviceName |
| DeviceNames.DeviceName | system/dev/misc/test/test.cpp:166-176 | the registered name is NUL-free and at most 31 bytes; it is "testdev" for an empty request and otherwise a prefix of the request |
| DeviceNames.StripSoMatchesSource | system/dev/misc/test/test.cpp:173-176 | on names of three or more bytes the corrected stripping gives what the source computes |
| DeviceNames.StripSoShortNameUnchanged | system/dev/misc/test/test.cpp:174-175 | a name shorter than three bytes is kept as it is |
| DeviceNames.StripSoOnce | system/dev/misc/test/test.cpp:173-176 | stripping `n + ".so"` gives back `n`, so "foo.so.so" becomes "foo.so" |
| DeviceNames.DeviceNameEmpty | system/dev/misc/test/test.cpp:169-171 | an empty request is registered as "testdev" |
| DeviceNames.DeviceNameKeepsPlainName | system/dev/misc/test/test.cpp:166-176 | a non-empty NUL-free name of at most 31 bytes that does not end in ".so" is registered unchanged |
| DeviceNames.DeviceNameStripsSo | system/dev/misc/test/test.cpp:166-176 | a NUL-free `n` with `n + ".so"` fitting in 31 bytes: the request `n + ".so"` is registered as `n` |
| DeviceNames.DeviceNameIgnoresFittingSo | system/dev/misc/test/test.cpp:166-176 | for a non-empty NUL-free name not ending in ".so" whose request with ".so" fits in 31 bytes, appending ".so" does not change the registered name |
| DeviceNames.DeviceNameSoBeyondCut | system/dev/misc/test/test.cpp:166-176 | for a NUL-free request of 31 bytes or more, appending ".so" does not change the registered name |
| DeviceNames.DeviceNameSoStraddlesCut | system/dev/misc/test/test.cpp:166-176 | for a NUL-free request of 29 or 30 bytes plus ".so", the registered name is the first 31 bytes, keeping ".s" or ".", so it differs from the name the bare request registers |
| DeviceNames.DeviceNameDoubleSo | system/dev/misc/test/test.cpp:166-176 | for a NUL-free name of at most 28 bytes that ends in ".so", the request with ".so" appended registers the name itself, which differs from the name the bare request registers |
| DeviceNames.DeviceNameTruncates | system/dev/misc/test/test.cpp:166-172 | a NUL-free request over 31 bytes is cut to 31 bytes before the suffix check |
| DeviceNames.BareSuffixGivesEmptyName | system/dev/misc/test/test.cpp:167-176 | the request ".so" is registered under the empty name, not under the default |
| ControlPaths.ChildPath | system/dev/misc/test/test.cpp:190-191 | the child path is the control device path, a "/", then the device name, and its length is the sum of those parts |
| ControlPaths.Snprintf | system/dev/misc/test/test.cpp:190-191 | formatting keeps the buffer length, returns the full string length, and leaves a terminated prefix of the string; when the string fits, the buffer starts with the string and a NUL and the rest is untouched |
| ControlPaths.SnprintfFits | system/dev/misc/test/test.cpp:190-191 | when the string is shorter than the buffer, the whole string is read back and the count is below the buffer size |
| ControlPaths.SnprintfTruncates | system/dev/misc/test/test.cpp:190-191 | when it is not, the read-back is cut to size - 1 bytes and the count is at least the buffer size |
| Zx.EncodeU32 | system/dev/misc/test/test.cpp:138 | a handle occupies four bytes, least significant first, whose base-256 value is the handle |
| Zx.DecodeU32 | system/dev/misc/test/test.cpp:138 | reading four input bytes as a handle gives the value whose in-memory layout is exactly those bytes |
| Zx.DecodeEncodeU32 | system/dev/misc/test/test.cpp:138 | a handle written in its in-memory layout reads back as the same handle |
| TestProtocol.DecodeEncodeReport | system/dev/misc/test/test.cpp:145-146 | a report written into the 12-byte output buffer reads back unchanged |
| TestProtocol.EncodeReport | system/dev/misc/test/test.cpp:145-146 | a report occupies exactly the 12 bytes the legacy run checks for and reports |
| TestProtocol.DecodeReport | system/dev/misc/test/test.cpp:145-146 | reading a 12-byte buffer as a report gives the report whose layout is exactly those bytes |
| TestDevice.NewDevice | system/dev/misc/test/test.cpp:182 | a new child has the invalid socket, no callback and no remove request |
| TestDevice.NewDeviceAsWritten | system/dev/misc/test/test.cpp:43-44 | as declared, a new child's socket is invalid but its test function is whatever the allocation held |
| TestDevice.SetOutputSocket | system/dev/misc/test/test.cpp:72-74 | the stored socket becomes the given handle; the test function and the remove requests are unchanged |
| TestDevice.SetTestFunc | system/dev/misc/test/test.cpp:80-82 | the stored test function becomes the given one; the socket and the remove requests are unchanged |
| TestDevice.RunTests | system/dev/misc/test/test.cpp:84-89 | with no callback: NOT_SUPPORTED and the report buffer unchanged; otherwise exactly the callback's status and report |
| TestDevice.Destroy | system/dev/misc/test/test.cpp:91-93 | one more remove request is sent; the socket and the test function are kept |
| TestDevice.SetOutputSocketOverwrites | system/dev/misc/test/test.cpp:72-78 | setting h1 then h2 is the same as setting h2; the socket read back is h2 |
| TestDevice.SetTestFuncOverwrites | system/dev/misc/test/test.cpp:80-82 | setting f1 then f2 is the same as setting f2 |
| TestDevice.RunTestsBeforeSetTestFunc | system/dev/misc/test/test.cpp:84-87 | a new child refuses to run with NOT_SUPPORTED and leaves the report as it was |
| TestDevice.UninitialisedCallbackRuns | system/dev/misc/test/test.cpp:84-88 | as declared, a new child whose allocation held a non-NULL callback runs that callback |
| TestDevice.RunTestsPassesThrough | system/dev/misc/test/test.cpp:88 | after a callback is registered, a run returns exactly what that callback returns for its context |
| TestDevice.DeviceIoctl | system/dev/misc/test/test.cpp:131-156 | SET_OUTPUT_SOCKET: INVALID_ARGS unless the input is exactly 4 bytes. RUN_TESTS: BUFFER_TOO_SMALL unless the output is exactly 12 bytes (larger or smaller); otherwise the count is 12 and the buffer holds the run's report. DESTROY: OK. Anything else: NOT_SUPPORTED. Size and op-code failures leave the device and buffer unchanged and write no count; a RUN_TESTS whose callback fails still reports 12 bytes and keeps what the callback wrote |
| TestDevice.IoctlSetsEncodedSocket | system/dev/misc/test/test.cpp:134-139 | a handle written into the 4-byte input is the socket the device keeps |
| TestDevice.IoctlRunWithoutCallback | system/dev/misc/test/test.cpp:141-147 | with no callback, the legacy run returns NOT_SUPPORTED, still reports 12 bytes, and leaves the buffer bytes as they were |
| TestDevice.IoctlFailureChangesNothing | system/dev/misc/test/test.cpp:133-155 | outside RUN_TESTS, a failing control call changes neither the device nor the output buffer and writes no count |
| TestDevice.FidlSetOutputSocket | system/dev/misc/test/test.cpp:95-100 | the structured request always answers OK and stores the transferred handle |
| TestDevice.FidlDestroy | system/dev/misc/test/test.cpp:116-120 | the structured request always answers OK and sends one remove request |
| TestDevice.FidlRunTests | system/dev/misc/test/test.cpp:102-114 | the callback runs on a zeroed report; the reply carries its status, and its counters only when that status is OK, otherwise zeros; with no callback the reply is NOT_SUPPORTED with zeros |
| TestRootDevice.PathSizeNeeded | system/dev/misc/test/test.cpp:178 | the smallest buffer accepted is exactly the child path's length plus one for its terminator |
| TestRootDevice.CreateDevice | system/dev/misc/test/test.cpp:162-193 | a buffer shorter than name + 16 gives BUFFER_TOO_SMALL before the device manager is asked. Otherwise the name is added and its status returned. On OK the new child is owned by the device manager, the buffer holds the path and a NUL, and the count is the path length, strictly below the buffer size. On failure no child exists and neither the path nor the count is written |
| TestRootDevice.ShortBufferCreatesNothing | system/dev/misc/test/test.cpp:178-183 | a short buffer returns BUFFER_TOO_SMALL with no add request and no child |
| TestRootDevice.AddFailurePropagates | system/dev/misc/test/test.cpp:182-186 | an add failure is returned unchanged, with no child, no path and no count written |
| TestRootDevice.FinishCreate | system/dev/misc/test/test.cpp:203-213 | the root's post-processing keeps the create's status and child and the buffer length. A failure passes through with nothing added. On success the caller is left a terminator: either the last buffer byte is set to NUL and the bytes before it are kept (the count filled the buffer), or the count grows by one to cover it |
| TestRootDevice.RootIoctl | system/dev/misc/test/test.cpp:195-214 | any operation other than CREATE_DEVICE answers NOT_SUPPORTED and touches nothing; the output buffer keeps its length |
| TestRootDevice.ExactFillUnreachable | system/dev/misc/test/test.cpp:178-208 | after a successful create, the reported count is always below the buffer size, so the exact-fill overwrite never runs |
| TestRootDevice.RootIoctlSuccess | system/dev/misc/test/test.cpp:195-214 | a successful legacy create reports path length + 1, which fits the buffer; the buffer starts with the path and a NUL; the name is the input up to its first NUL |
| TestRootDevice.RootIoctlFailure | system/dev/misc/test/test.cpp:201-205 | a failed legacy create writes nothing. It is BUFFER_TOO_SMALL when the buffer is short, and otherwise the device manager's status |
| TestRootDevice.RootIoctlIgnoresInlen | system/dev/misc/test/test.cpp:201 | the root's answer does not depend on the input length |
| TestRootDevice.FidlCreateDevice | system/dev/misc/test/test.cpp:216-225 | the structured create answers with the device manager's status. On OK it carries the child path without terminator; otherwise an empty path and no child |
| TestRootDevice.FidlCreateAnyBuffer | system/dev/misc/test/test.cpp:216-225 | the uninitialised 1024-byte path buffer's contents never reach the structured reply: any initial contents give the same reply |
| TestRootDevice.CreateFooSo | system/dev/misc/test/test.cpp:173-191 | a request for "foo.so" registers "foo" at "/dev/test/test/foo" |
| Surfaces.CreateSurfacesAgree | system/dev/misc/test/test.cpp:195-225 | for a NUL-free name and a legacy buffer of at least 1024 bytes, both surfaces give the same status and child. On success the legacy buffer holds the structured path plus a NUL, and its count is one more |
| Surfaces.StructuredCreateNeverShort | system/dev/misc/test/test.cpp:220-223 | the 1024-byte structured path buffer always passes the size check |
| Surfaces.RunTestsSurfacesAgree | system/dev/misc/test/test.cpp:102-147 | a legacy run on a zeroed buffer and a structured run give the same status, and on success the same counters |
| Surfaces.SetOutputSocketSurfacesAgree | system/dev/misc/test/test.cpp:95-139 | setting a socket through either surface leaves the same device and status |
| Surfaces.DestroySurfacesAgree | system/dev/misc/test/test.cpp:116-151 | destroy through either surface gives OK and the same remove request |
| Surfaces.FiveOfFiveScenario | system/dev/misc/test/test.cpp:84-114 | a new child refuses to run. Once given a callback that reports (5, 5, 0), both surfaces return (5, 5, 0) |

## Findings

| source | as written | input that shows it | evidently intended | confidence | as-written member | corrected member |
|---|---|---|---|---|---|---|
| system/dev/misc/test/test.cpp:174-175 | the ".so" check compares from `devname + strlen(devname) - 3` with no length guard | a non-empty request whose devname has fewer than 3 bytes: "ab" on either surface, "\0x" on the structured one | names shorter than three bytes are kept as they are | not executed; high | DeviceNames.StripSoAsWritten, DeviceNames.DeviceNameAsWritten, DeviceNames.ShortNameReadsBeforeBuffer | DeviceNames.StripSo, DeviceNames.StripSoShortNameUnchanged |
| system/dev/misc/test/test.cpp:44 | `test_func_` has no initializer, and the constructor leaves it indeterminate | RunTests on a freshly created child before any SetTestFunc | the callback starts NULL, so such a run answers NOT_SUPPORTED | not executed; medium (the outcome depends on what the allocation held) | TestDevice.NewDeviceAsWritten, TestDevice.UninitialisedCallbackRuns | TestDevice.NewDevice, TestDevice.RunTestsBeforeSetTestFunc |

The rest of the model uses the corrected members: `DeviceName` strips with
`StripSo`, and `CreateDevice` creates children with `NewDevice`.

## Left out

- system/dev/board/astro/astro.h: board wiring (enumerations, address constants, init prototypes) with no decision logic.
- Structured message dispatch (`DdkMessage` with its `kOps` tables, the generated `*_dispatch` and `*_reply` functions): generated encoding code. Each adapter is modelled as its status plus reply fields.
- `TestRootDevice::Bind`, `TestDriverBind`, `kTestDriverOps` and the driver binding table: driver registration plumbing.
- The root's `DdkRelease`: a fatal assertion. The root is never released in this model.
- The leaf's `DdkRelease` and the `unique_ptr` hand-off: memory ownership. The model represents the hand-off as the `child` field of a successful create.
- Closing the previous socket on `reset`, and handle ownership transfer: kernel effects. A handle is an opaque 32-bit value.
- `TestGetOutputSocket` is modelled as `TestDevice.GetOutputSocket`, a plain accessor. It is used in the setters' contracts and has no row of its own.
- The device manager's behaviour (name collisions, not-found after removal): an external collaborator, given as the `DeviceAdd` parameter and the remove-request count.
- TestRootDevice.RootIoctl: the input buffer is the memory at the input pointer. If it holds no NUL, the source keeps reading past `inlen`; the model stops at the end of the sequence.
- Sizes are unbounded naturals. With the sizes involved (at most 47 path bytes), no `size_t` or `int` overflow can occur.
