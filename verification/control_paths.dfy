/** The path a caller uses to reach a newly created child, and the bounded
    formatting (`snprintf`) that writes it into the caller's buffer. */
module ControlPaths {
  import opened Zx
  import opened DeviceNames

  /** fuchsia_device_test_CONTROL_DEVICE: where the root test device lives. */
  const CONTROL_DEVICE: ByteString := "/dev/test/test"

  /** sizeof(fuchsia_device_test_CONTROL_DEVICE): the literal and its terminator. */
  const CONTROL_DEVICE_SIZE: nat := |CONTROL_DEVICE| + 1

  /** fuchsia_device_test_MAX_DEVICE_PATH_LEN: the path buffer of the structured surface. */
  const MAX_DEVICE_PATH_LEN: nat := 1024

  /** The path of the child registered as `devname`: "<control device>/<devname>". */
  function ChildPath(devname: ByteString): (p: ByteString)
    ensures |p| == |CONTROL_DEVICE| + 1 + |devname|
    ensures p[..|CONTROL_DEVICE|] == CONTROL_DEVICE
    ensures p[|CONTROL_DEVICE|] == '/'
    ensures p[|CONTROL_DEVICE| + 1..] == devname
  {
    CONTROL_DEVICE + "/" + devname
  }

  lemma ChildPathHasNoNul(devname: ByteString)
    requires NUL !in devname
    ensures NUL !in ChildPath(devname)
  {
  }

  /** A buffer after formatting into it, and the count snprintf returns. */
  datatype Formatted = Formatted(buf: ByteString, count: nat)

  /** `snprintf(buf, |buf|, "%s", s)`: the leading |buf| - 1 bytes of `s` at
      most, then a terminator; the rest of the buffer is untouched. The count
      returned is the length of `s`, whether or not it all fitted. */
  function Snprintf(buf: ByteString, s: ByteString): (r: Formatted)
    requires NUL !in s
    ensures |r.buf| == |buf|
    ensures r.count == |s|
    ensures |buf| == 0 ==> r.buf == buf
    ensures |buf| > 0 ==> CString(r.buf) == s[..Min(|s|, |buf| - 1)]
    ensures |s| < |buf| ==> r.buf[..|s| + 1] == s + [NUL] && r.buf[|s| + 1..] == buf[|s| + 1..]
  {
    if |buf| == 0 then Formatted(buf, |s|)
    else
      var k := Min(|s|, |buf| - 1);
      var out := s[..k] + [NUL] + buf[k + 1..];
      assert out[..k + 1] == s[..k] + [NUL];
      CStringUnique(out, s[..k]);
      Formatted(out, |s|)
  }

  /** When the buffer can hold the whole string and its terminator, the
      caller reads back exactly `s`, and the count is below the buffer size. */
  lemma SnprintfFits(buf: ByteString, s: ByteString)
    requires NUL !in s
    requires |s| < |buf|
    ensures CString(Snprintf(buf, s).buf) == s
    ensures Snprintf(buf, s).count < |buf|
  {
  }

  /** When it cannot, the string is cut and the count reports the full length,
      at least the buffer size. */
  lemma SnprintfTruncates(buf: ByteString, s: ByteString)
    requires NUL !in s
    requires 0 < |buf| <= |s|
    ensures CString(Snprintf(buf, s).buf) == s[..|buf| - 1]
    ensures Snprintf(buf, s).count >= |buf|
  {
  }
}
