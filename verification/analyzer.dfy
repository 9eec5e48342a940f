/** The openat analyzer of internal/analyzer/analyzer.go: NUL-trimming
    normalisation, the `formatStatus` text, and the fixed priority chain
    `resolvePath` follows to turn the path a process passed to openat into
    an absolute one. `os.Readlink` is an oracle from link path to target
    (`None` for an error) and `filepath.Join` an uninterpreted function. */
module Analyzer {
  import opened Machine
  import opened Wrappers
  import opened Text
  import opened Events

  // ---------------------------------------------------------------------
  // Normalisation

  /** `string(bytes.TrimRight(buf, "\x00"))`. */
  function Normalize(buf: seq<byte>): (s: string)
    ensures |s| <= |buf| && s == FromBytes(buf[..|s|])
    ensures forall i :: |s| <= i < |buf| ==> buf[i] == 0
    ensures |s| == 0 || s[|s| - 1] != 0 as char
  {
    FromBytes(TrimRightNul(buf))
  }

  /** A NUL followed later by a non-NUL byte is kept, with everything after it. */
  lemma NormalizeKeepsInteriorNul(buf: seq<byte>, i: nat, j: nat)
    requires i < j < |buf| && buf[i] == 0 && buf[j] != 0
    ensures |Normalize(buf)| > j
    ensures Normalize(buf)[i] == 0 as char && Normalize(buf)[j] == buf[j] as char
  {
    TrimRightKeepsInteriorNul(buf, i, j);
  }

  /** On a buffer that is text followed only by NUL padding, trimming and
      `cleanString` agree. */
  lemma NormalizeAgreesWithCleanString(buf: seq<byte>, k: nat)
    requires k <= |buf| && 0 !in buf[..k]
    requires forall i :: k <= i < |buf| ==> buf[i] == 0
    ensures Normalize(buf) == CleanString(buf)
  {
    if k > 0 {
      assert buf[..k][k - 1] == buf[k - 1];
    }
    TrimRightNulUnique(buf, k);
    if k < |buf| {
      CleanStringUnique(buf, k);
    } else {
      assert buf[..k] == buf;
    }
  }

  /** They differ as soon as there is text after a NUL: "a\0b" stays whole
      under trimming, while `cleanString` stops at the NUL. */
  lemma NormalizeDiffersFromCleanString()
    ensures Normalize([0x61, 0, 0x62]) == ['a', 0 as char, 'b']
    ensures CleanString([0x61, 0, 0x62]) == "a"
  {
    var buf: seq<byte> := [0x61, 0, 0x62];
    assert buf[1] == 0 && 0 !in buf[..1];
    CleanStringUnique(buf, 1);
  }

  // ---------------------------------------------------------------------
  // Status

  /** `formatStatus`. */
  function FormatStatus(ret: int32): (s: string)
    ensures ret < 0 <==> |s| >= 14 && s[..14] == "BLOCKED (Err: "
    ensures ret >= 0 <==> |s| >= 13 && s[..13] == "SUCCESS (FD: "
    ensures s[|s| - 1] == ')'
  {
    if ret < 0 then
      var s := "BLOCKED (Err: " + Decimal(ret) + ")";
      assert s[0] == 'B';
      s
    else
      var s := "SUCCESS (FD: " + Decimal(ret) + ")";
      assert s[0] == 'S';
      s
  }

  /** Reads a `formatStatus` text back. */
  function ParseStatus(s: string): Option<int>
  {
    if |s| >= 15 && s[..14] == "BLOCKED (Err: " && s[|s| - 1] == ')' then ParseDecimal(s[14..|s| - 1])
    else if |s| >= 14 && s[..13] == "SUCCESS (FD: " && s[|s| - 1] == ')' then ParseDecimal(s[13..|s| - 1])
    else None
  }

  /** The status text determines the return value. */
  lemma FormatStatusRoundTrip(ret: int32)
    ensures ParseStatus(FormatStatus(ret)) == Some(ret)
  {
    var s := FormatStatus(ret);
    ParseDecimalOfDecimal(ret);
    if ret < 0 {
      assert s[14..|s| - 1] == Decimal(ret);
    } else {
      assert s[13..|s| - 1] == Decimal(ret);
    }
  }

  /** The analyzer and `OpenatEvent.String` classify a result the same way:
      BLOCKED exactly when ERR. */
  lemma FormatStatusAgreesWithEvents(ret: int32)
    ensures (|FormatStatus(ret)| >= 14 && FormatStatus(ret)[..14] == "BLOCKED (Err: ") <==> "ERR:" <= OpenatStatus(ret)
  {
  }

  // ---------------------------------------------------------------------
  // Path resolution

  /** `fmt.Sprintf("/proc/%d/fd/%d", pid, ret)`. */
  function FdLink(pid: u32, ret: int32): (link: string)
    ensures "/proc/" <= link && '/' in link[6..]
    ensures ProcParts(link) == (Decimal(pid), "fd/" + Decimal(ret))
  {
    var d, rest := Decimal(pid), "fd/" + Decimal(ret);
    ProcPartsOf(d, rest);
    "/proc/" + d + "/" + rest
  }

  /** `fmt.Sprintf("/proc/%d/cwd", pid)`. */
  function CwdLink(pid: u32): (link: string)
    ensures "/proc/" <= link && '/' in link[6..]
    ensures ProcParts(link) == (Decimal(pid), "cwd")
  {
    var d := Decimal(pid);
    ProcPartsOf(d, "cwd");
    "/proc/" + d + "/" + "cwd"
  }

  /** The two parts of a `/proc/<pid>/<rest>` link path. */
  ghost function ProcParts(s: string): (string, string)
    requires "/proc/" <= s && '/' in s[6..]
  {
    var i := IndexOf(s[6..], '/');
    (s[6..][..i], s[6..][i + 1..])
  }

  /** A link path built from a pid field without `/` splits back into its parts. */
  lemma ProcPartsOf(d: string, rest: string)
    requires '/' !in d
    ensures var s := "/proc/" + d + "/" + rest;
      "/proc/" <= s && '/' in s[6..] && ProcParts(s) == (d, rest)
  {
    var s := "/proc/" + d + "/" + rest;
    var q := d + "/" + rest;
    assert s[6..] == q;
    assert q[|d|] == '/' && q[..|d|] == d;
    IndexOfUnique(q, '/', |d|);
    assert q[|d| + 1..] == rest;
  }


  /** The fd link names exactly one process and descriptor. */
  lemma FdLinkIdentifies(p1: u32, r1: int32, p2: u32, r2: int32)
    requires FdLink(p1, r1) == FdLink(p2, r2)
    ensures p1 == p2 && r1 == r2
  {
    var x1, x2 := "fd/" + Decimal(r1), "fd/" + Decimal(r2);
    assert Decimal(p1) == Decimal(p2) && x1 == x2;
    DecimalInjective(p1, p2);
    assert x1[3..] == Decimal(r1) && x2[3..] == Decimal(r2);
    DecimalInjective(r1, r2);
  }

  /** The two link paths the analyzer asks about are never the same path. */
  lemma FdLinkIsNotCwdLink(p1: u32, r: int32, p2: u32)
    ensures FdLink(p1, r) != CwdLink(p2)
  {
    var x := "fd/" + Decimal(r);
    assert ProcParts(FdLink(p1, r)).1 == x && x[0] == 'f';
  }

  /** `(*Analyzer).resolvePath`, with `os.Readlink` as `readlink` and
      `filepath.Join` as `join`. */
  function ResolvePath(e: OpenatEvent, filename: string,
                       readlink: string -> Option<string>,
                       join: (string, string) -> string): (path: string)
    // A successful open whose fd link resolves: the link's target, whatever the filename.
    ensures e.ret >= 0 && readlink(FdLink(e.common.pid, e.ret)).Some? ==>
      path == readlink(FdLink(e.common.pid, e.ret)).value
    // Otherwise an absolute filename comes back unchanged.
    ensures (e.ret < 0 || readlink(FdLink(e.common.pid, e.ret)).None?) && "/" <= filename ==>
      path == filename
    // Otherwise a resolvable working directory is joined with the filename.
    ensures ((e.ret < 0 || readlink(FdLink(e.common.pid, e.ret)).None?) && !("/" <= filename)
             && readlink(CwdLink(e.common.pid)).Some?) ==>
      path == join(readlink(CwdLink(e.common.pid)).value, filename)
    // Otherwise the filename is marked unknown.
    ensures ((e.ret < 0 || readlink(FdLink(e.common.pid, e.ret)).None?) && !("/" <= filename)
             && readlink(CwdLink(e.common.pid)).None?) ==>
      path == "UNKNOWN/" + filename
  {
    var fd := if e.ret >= 0 then readlink(FdLink(e.common.pid, e.ret)) else None;
    if fd.Some? then fd.value
    else if |filename| >= 1 && filename[0] == '/' then filename
    else
      match readlink(CwdLink(e.common.pid))
      case Some(cwd) => join(cwd, filename)
      case None => "UNKNOWN/" + filename
  }

  /** The result depends on the filesystem only through the two links:
      two `readlink`s that agree on them give the same path. */
  lemma ResolvePathReadsTwoLinks(e: OpenatEvent, filename: string,
                                 r1: string -> Option<string>, r2: string -> Option<string>,
                                 join: (string, string) -> string)
    requires r1(FdLink(e.common.pid, e.ret)) == r2(FdLink(e.common.pid, e.ret))
    requires r1(CwdLink(e.common.pid)) == r2(CwdLink(e.common.pid))
    ensures ResolvePath(e, filename, r1, join) == ResolvePath(e, filename, r2, join)
  {
  }

  /** A failed open never consults the fd link: only the cwd link matters. */
  lemma FailedOpenIgnoresFdLink(e: OpenatEvent, filename: string,
                                r1: string -> Option<string>, r2: string -> Option<string>,
                                join: (string, string) -> string)
    requires e.ret < 0
    requires r1(CwdLink(e.common.pid)) == r2(CwdLink(e.common.pid))
    ensures ResolvePath(e, filename, r1, join) == ResolvePath(e, filename, r2, join)
  {
  }

  /** With every link unreadable (the process is gone), the path is the
      filename itself when absolute and `UNKNOWN/` before it otherwise;
      either way the filename is a suffix of the result. */
  lemma ResolvePathWithoutProc(e: OpenatEvent, filename: string, join: (string, string) -> string)
    ensures var path := ResolvePath(e, filename, _ => None, join);
      |path| >= |filename| && path[|path| - |filename|..] == filename
  {
  }

  // ---------------------------------------------------------------------
  // The handler

  /** What `HandleOpenat` logs, field by field. */
  datatype Report = Report(pid: u32, comm: string, rawPath: string, resolvedPath: string, status: string)

  /** `(*Analyzer).HandleOpenat`, up to the log line. The process id and
      name are read from the event's common header. */
  function HandleOpenat(e: OpenatEvent,
                        readlink: string -> Option<string>,
                        join: (string, string) -> string): (r: Report)
    ensures r.pid == e.common.pid
    ensures r.rawPath == Normalize(e.filename) && r.comm == Normalize(e.common.comm)
    ensures r.status == FormatStatus(e.ret) && ParseStatus(r.status) == Some(e.ret as int)
    ensures r.resolvedPath == ResolvePath(e, r.rawPath, readlink, join)
  {
    FormatStatusRoundTrip(e.ret);
    var raw := Normalize(e.filename);
    Report(e.common.pid, Normalize(e.common.comm), raw,
           ResolvePath(e, raw, readlink, join), FormatStatus(e.ret))
  }

  /** A successful open whose descriptor link resolves is reported at the
      link's target with a SUCCESS status carrying the descriptor. */
  lemma SuccessfulOpenReportsLinkTarget(e: OpenatEvent, readlink: string -> Option<string>,
                                        join: (string, string) -> string)
    requires e.ret >= 0 && readlink(FdLink(e.common.pid, e.ret)).Some?
    ensures HandleOpenat(e, readlink, join).resolvedPath == readlink(FdLink(e.common.pid, e.ret)).value
    ensures HandleOpenat(e, readlink, join).status[..13] == "SUCCESS (FD: "
  {
  }
}
