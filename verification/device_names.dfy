/** How the root test device turns a requested name into the name it registers
    a new child under: a bounded copy into a zeroed buffer (or the default
    name), read back as a NUL-terminated ByteString, with one trailing ".so"
    removed. */
module DeviceNames {
  import opened Zx

  const NUL: CChar := '\0'

  /** ZX_DEVICE_NAME_MAX: the longest device name, in bytes, not counting the terminator. */
  const DEVICE_NAME_MAX: nat := 31

  /** The name a child gets when the request names none. */
  const DEFAULT_NAME: ByteString := "testdev"

  /** The legacy loadable-module extension a requested name may carry. */
  const SO_SUFFIX: ByteString := ".so"

  /** The C string stored at the start of `buf`: every byte before the first
      NUL, or the whole buffer when it holds no NUL. */
  function CString(buf: ByteString): (r: ByteString)
    ensures |r| <= |buf|
    ensures r == buf[..|r|]
    ensures NUL !in r
    ensures |r| < |buf| ==> buf[|r|] == NUL
  {
    if |buf| == 0 || buf[0] == NUL then "" else [buf[0]] + CString(buf[1..])
  }

  /** The contract of CString pins its result down: any NUL-free prefix that
      stops at a NUL or at the end of the buffer is the C ByteString. */
  lemma CStringUnique(buf: ByteString, r: ByteString)
    requires |r| <= |buf| && r == buf[..|r|]
    requires NUL !in r
    requires |r| < |buf| ==> buf[|r|] == NUL
    ensures CString(buf) == r
  {
  }

  lemma CStringOfTerminated(s: ByteString)
    requires NUL !in s
    ensures CString(s + [NUL]) == s
    ensures CString(s) == s
  {
    CStringUnique(s + [NUL], s);
    CStringUnique(s, s);
  }

  /** The contents of `devname` after the bounded copy and the forced
      terminator, before the suffix check: the default name for an empty
      request, otherwise the requested bytes up to the first NUL and at most
      DEVICE_NAME_MAX of them. */
  function TruncatedName(name: ByteString): (r: ByteString)
    ensures |r| <= DEVICE_NAME_MAX
    ensures NUL !in r
    ensures |name| == 0 ==> r == DEFAULT_NAME
    ensures |name| > 0 ==> |r| <= Min(|name|, DEVICE_NAME_MAX) && r == name[..|r|]
    ensures |name| > 0 ==> |r| == Min(|name|, DEVICE_NAME_MAX) || name[|r|] == NUL
  {
    if |name| > 0 then CString(name[..Min(|name|, DEVICE_NAME_MAX)]) else DEFAULT_NAME
  }

  predicate EndsWithSo(d: ByteString)
  {
    |d| >= |SO_SUFFIX| && d[|d| - |SO_SUFFIX|..] == SO_SUFFIX
  }

  /** Removal of one trailing ".so", defined for every name: a name too short
      to carry the suffix is kept as it is. */
  function StripSo(d: ByteString): (r: ByteString)
    ensures EndsWithSo(d) ==> r + SO_SUFFIX == d
    ensures !EndsWithSo(d) ==> r == d
    ensures |r| <= |d| && r == d[..|r|]
  {
    if EndsWithSo(d) then d[..|d| - |SO_SUFFIX|] else d
  }

  /** What the suffix check does as written: it compares the string starting
      three bytes before the terminator with ".so", which starts before the
      buffer when the name is shorter than three bytes. */
  datatype StripOutcome = Stripped(name: ByteString) | ReadBeforeBuffer(offset: int)

  function StripSoAsWritten(d: ByteString): (r: StripOutcome)
    ensures r.ReadBeforeBuffer? <==> |d| < |SO_SUFFIX|
    ensures r.ReadBeforeBuffer? ==> r.offset < 0
    ensures r.Stripped? ==> r.name == StripSo(d)
  {
    var start := |d| - |SO_SUFFIX|;
    if start < 0 then ReadBeforeBuffer(start)
    else if d[start..] == SO_SUFFIX then Stripped(d[..start])
    else Stripped(d)
  }

  /** The name computation as written: the source reads before `devname`
      exactly when the name left after the copy is shorter than three bytes,
      which an empty request (given the default name) never is; otherwise it
      registers the same name as DeviceName. */
  function DeviceNameAsWritten(name: ByteString): (r: StripOutcome)
    ensures r.ReadBeforeBuffer? <==> |TruncatedName(name)| < |SO_SUFFIX|
    ensures |name| == 0 ==> r == Stripped(DEFAULT_NAME)
    ensures r.Stripped? ==> r.name == DeviceName(name)
  {
    StripSoAsWritten(TruncatedName(name))
  }

  /** A two-byte request makes the suffix check start one byte before the
      name buffer. */
  lemma ShortNameReadsBeforeBuffer()
    ensures DeviceNameAsWritten("ab") == ReadBeforeBuffer(-1)
    ensures DeviceNameAsWritten("\0x") == ReadBeforeBuffer(-3)
  {
    CStringOfTerminated("ab");
    assert "\0x"[..2] == [NUL] + "x";
  }

  /** The name under which a new child is registered. */
  function DeviceName(name: ByteString): (r: ByteString)
    ensures |r| <= DEVICE_NAME_MAX
    ensures NUL !in r
    ensures |name| == 0 ==> r == DEFAULT_NAME
    ensures |name| > 0 ==> |r| <= |name| && r == name[..|r|]
  {
    StripSo(TruncatedName(name))
  }

  /** The corrected check agrees with the source on every name of three or
      more bytes and never looks outside the name. */
  lemma StripSoMatchesSource(d: ByteString)
    requires |d| >= |SO_SUFFIX|
    ensures StripSoAsWritten(d) == Stripped(StripSo(d))
  {
  }

  lemma StripSoShortNameUnchanged(d: ByteString)
    requires |d| < |SO_SUFFIX|
    ensures StripSo(d) == d
  {
  }

  /** Exactly one suffix is removed: "foo.so" becomes "foo", "foo.so.so" becomes "foo.so". */
  lemma StripSoOnce(n: ByteString)
    ensures StripSo(n + SO_SUFFIX) == n
  {
    assert (n + SO_SUFFIX)[|n|..] == SO_SUFFIX;
  }

  lemma DeviceNameEmpty()
    ensures DeviceName("") == DEFAULT_NAME
  {
  }

  /** A NUL-free name that fits and has no ".so" is registered unchanged. */
  lemma DeviceNameKeepsPlainName(n: ByteString)
    requires 0 < |n| <= DEVICE_NAME_MAX
    requires NUL !in n
    requires !EndsWithSo(n)
    ensures DeviceName(n) == n
  {
    assert n[..Min(|n|, DEVICE_NAME_MAX)] == n;
    CStringOfTerminated(n);
  }

  /** A NUL-free name with ".so" appended is registered as the bare name,
      provided the whole request fits in DEVICE_NAME_MAX bytes. */
  lemma DeviceNameStripsSo(n: ByteString)
    requires |n| + |SO_SUFFIX| <= DEVICE_NAME_MAX
    requires NUL !in n
    ensures DeviceName(n + SO_SUFFIX) == n
  {
    var req := n + SO_SUFFIX;
    assert NUL !in req;
    assert req[..Min(|req|, DEVICE_NAME_MAX)] == req;
    CStringOfTerminated(req);
    StripSoOnce(n);
  }

  /** For a non-empty NUL-free name without ".so" whose request with ".so"
      still fits, appending the suffix does not change the registered name. */
  lemma DeviceNameIgnoresFittingSo(n: ByteString)
    requires 0 < |n| && |n| + |SO_SUFFIX| <= DEVICE_NAME_MAX
    requires NUL !in n
    requires !EndsWithSo(n)
    ensures DeviceName(n + SO_SUFFIX) == DeviceName(n)
  {
    DeviceNameStripsSo(n);
    DeviceNameKeepsPlainName(n);
  }

  /** A longer NUL-free request is cut to DEVICE_NAME_MAX bytes before the
      suffix check, so a ".so" that straddles the cut survives in part. */
  lemma DeviceNameTruncates(n: ByteString)
    requires |n| > DEVICE_NAME_MAX
    requires NUL !in n
    ensures DeviceName(n) == StripSo(n[..DEVICE_NAME_MAX])
  {
    CStringOfTerminated(n[..DEVICE_NAME_MAX]);
  }

  /** A NUL-free request of DEVICE_NAME_MAX bytes or more is cut before the
      appended ".so" is reached, so the suffix makes no difference. */
  lemma DeviceNameSoBeyondCut(n: ByteString)
    requires |n| >= DEVICE_NAME_MAX
    requires NUL !in n
    ensures DeviceName(n + SO_SUFFIX) == DeviceName(n)
  {
    var req := n + SO_SUFFIX;
    assert req[..DEVICE_NAME_MAX] == n[..DEVICE_NAME_MAX];
    DeviceNameTruncates(req);
    if |n| > DEVICE_NAME_MAX {
      DeviceNameTruncates(n);
    } else {
      assert n[..DEVICE_NAME_MAX] == n;
      CStringOfTerminated(n);
    }
  }

  /** When the cut falls inside an appended ".so", the part before the cut
      ("." or ".s") stays in the registered name. */
  lemma DeviceNameSoStraddlesCut(n: ByteString)
    requires DEVICE_NAME_MAX - |SO_SUFFIX| < |n| < DEVICE_NAME_MAX
    requires NUL !in n
    ensures DeviceName(n + SO_SUFFIX) == (n + SO_SUFFIX)[..DEVICE_NAME_MAX]
    ensures DeviceName(n + SO_SUFFIX) != DeviceName(n)
  {
    var req := n + SO_SUFFIX;
    DeviceNameTruncates(req);
    var cut := req[..DEVICE_NAME_MAX];
    assert cut[|cut| - 1] == req[DEVICE_NAME_MAX - 1] != 'o';
    assert !EndsWithSo(cut);
  }

  /** A fitting NUL-free name that already ends in ".so" loses only the
      appended suffix, while the bare name loses its own: the two requests
      register different names. */
  lemma DeviceNameDoubleSo(n: ByteString)
    requires |n| + |SO_SUFFIX| <= DEVICE_NAME_MAX
    requires NUL !in n
    requires EndsWithSo(n)
    ensures DeviceName(n + SO_SUFFIX) == n
    ensures DeviceName(n + SO_SUFFIX) != DeviceName(n)
  {
    DeviceNameStripsSo(n);
    assert n[..Min(|n|, DEVICE_NAME_MAX)] == n;
    CStringOfTerminated(n);
    assert |DeviceName(n)| == |n| - |SO_SUFFIX|;
  }

  /** The request ".so" is registered under the empty name, not the default:
      stripping happens after the default is chosen. */
  lemma BareSuffixGivesEmptyName()
    ensures DeviceName(SO_SUFFIX) == ""
    ensures DeviceName("") != DeviceName(SO_SUFFIX)
  {
    DeviceNameStripsSo("");
  }
}
