/** The event records of internal/events/events.go and their one-line
    descriptions (the `String()` methods), together with the byte helpers
    they use: `cleanString`, `int2ip` and `ntohs`. */
module Events {
  import opened Machine
  import opened Wrappers
  import opened Text

  /** A `[128]byte` path buffer. */
  type PathBuf = s: seq<byte> | |s| == 128 witness seq(128, _ => 0)
  /** One `[64]byte` argument slot. */
  type ArgSlot = s: seq<byte> | |s| == 64 witness seq(64, _ => 0)
  /** A `[24][64]byte` argument table. */
  type ArgTable = s: seq<ArgSlot> | |s| == 24 witness EMPTY_TABLE

  const EMPTY_SLOT: ArgSlot := seq(64, _ => 0)
  const EMPTY_TABLE: seq<ArgSlot> := seq(24, _ => EMPTY_SLOT)

  /** `CommonEvent`: the header every event shares. */
  datatype CommonEvent = CommonEvent(
    cgroupId: u64, pid: u32, ppid: u32, uid: u32, gid: u32, comm: Comm, pcomm: Comm)

  /** `OpenatEvent`; `flags` is the bit pattern of the C `int32`. */
  datatype OpenatEvent = OpenatEvent(
    common: CommonEvent, flags: bv32, dfd: int32, ret: int32, filename: PathBuf)

  /** `ExecveEvent`. */
  datatype ExecveEvent = ExecveEvent(
    common: CommonEvent, ret: int32, filename: PathBuf, argv: ArgTable, envp: ArgTable)

  /** `ConnectEvent`; `ip` and `port` are as the kernel stored them, in network order. */
  datatype ConnectEvent = ConnectEvent(
    common: CommonEvent, ret: int32, fd: int32, ip: u32, port: bv16)

  /** `int2ip` without the final rendering: `binary.LittleEndian.PutUint32`,
      so byte i is `(nn >> 8i) & 0xff`. */
  function Int2IP(nn: u32): (ip: seq<byte>)
    ensures |ip| == 4
    ensures forall i :: 0 <= i < 4 ==> ip[i] == ByteOf(nn, i)
    ensures LE32(ip) == nn
  {
    LE32OfPutLE32(nn);
    PutLE32(nn)
  }

  /** `net.IP.String` for a four-byte address: the octets in decimal, joined by dots. */
  function DottedQuad(ip: seq<byte>): (s: string)
    requires |ip| == 4
    ensures Split(s, '.') == [Decimal(ip[0]), Decimal(ip[1]), Decimal(ip[2]), Decimal(ip[3])]
    ensures ' ' !in s
  {
    var octets := [Decimal(ip[0]), Decimal(ip[1]), Decimal(ip[2]), Decimal(ip[3])];
    assert forall k :: 0 <= k < 4 ==> octets[k] == Decimal(ip[k]);
    SplitJoin(octets, '.');
    JoinAvoids(octets, ".", ' ');
    Join(octets, ".")
  }

  /** Distinct addresses are shown as distinct text. */
  lemma DottedQuadInjective(a: seq<byte>, b: seq<byte>)
    requires |a| == 4 && |b| == 4
    requires DottedQuad(a) == DottedQuad(b)
    ensures a == b
  {
    OctetsInjective(a, b);
  }

  /** Four octets are determined by their decimal renderings. */
  lemma OctetsInjective(a: seq<byte>, b: seq<byte>)
    requires |a| == 4 && |b| == 4
    requires [Decimal(a[0]), Decimal(a[1]), Decimal(a[2]), Decimal(a[3])]
          == [Decimal(b[0]), Decimal(b[1]), Decimal(b[2]), Decimal(b[3])]
    ensures a == b
  {
    var da := [Decimal(a[0]), Decimal(a[1]), Decimal(a[2]), Decimal(a[3])];
    assert da[0] == Decimal(b[0]) && da[1] == Decimal(b[1]);
    assert da[2] == Decimal(b[2]) && da[3] == Decimal(b[3]);
    DecimalInjective(a[0], b[0]);
    DecimalInjective(a[1], b[1]);
    DecimalInjective(a[2], b[2]);
    DecimalInjective(a[3], b[3]);
  }

  /** `ntohs`: `(port<<8)&0xff00 | (port>>8)&0x00ff` on a `uint16`. */
  function Ntohs(port: bv16): (r: bv16)
    ensures r & 0xff == port >> 8
    ensures r >> 8 == port & 0xff
  {
    ((port << 8) & 0xff00) | ((port >> 8) & 0x00ff)
  }

  /** Swapping twice gives the port back. */
  lemma NtohsInvolution(port: bv16)
    ensures Ntohs(Ntohs(port)) == port
  {
  }

  /** The RET field of `OpenatEvent.String`: the `"SUCCESS"` it starts from
      is always overwritten. */
  function OpenatStatus(ret: int32): (s: string)
    ensures ("ERR:" <= s) <==> ret < 0
    ensures ("FD:" <= s) <==> ret >= 0
    ensures s != "SUCCESS"
    ensures ' ' !in s
  {
    if ret < 0 then
      var s := "ERR:" + Decimal(ret);
      assert s[0] == 'E' && !("FD:" <= s);
      s
    else
      var s := "FD:" + Decimal(ret);
      assert s[0] == 'F' && !("ERR:" <= s);
      s
  }

  /** Reads an `OpenatStatus` text back. */
  function ParseOpenatStatus(s: string): Option<int>
  {
    if "ERR:" <= s then ParseDecimal(s[4..])
    else if "FD:" <= s then ParseDecimal(s[3..])
    else None
  }

  /** The status text determines the return value it was made from. */
  lemma OpenatStatusRoundTrip(ret: int32)
    ensures ParseOpenatStatus(OpenatStatus(ret)) == Some(ret)
  {
    var s := OpenatStatus(ret);
    ParseDecimalOfDecimal(ret);
    if ret < 0 {
      assert s[4..] == Decimal(ret);
    } else {
      assert s[3..] == Decimal(ret);
    }
  }

  /** The RET field of `ConnectEvent.String`: no FD for connect, so every
      non-negative result reads `SUCCESS`. */
  function ConnectStatus(ret: int32): (s: string)
    ensures s == "SUCCESS" <==> ret >= 0
    ensures ret < 0 ==> "ERR:" <= s && ParseDecimal(s[4..]) == Some(ret)
    ensures ' ' !in s
  {
    if ret < 0 then
      ParseDecimalOfDecimal(ret);
      assert ("ERR:" + Decimal(ret))[4..] == Decimal(ret);
      "ERR:" + Decimal(ret)
    else "SUCCESS"
  }

  /** `field` is `tag` followed by `text`. */
  predicate ShowsText(field: string, tag: string, text: string)
  {
    tag <= field && field[|tag|..] == text
  }

  /** `field` is `PID:` followed by digits that read back as `pid`. */
  predicate ShowsPid(field: string, pid: u32)
  {
    "PID:" <= field && ParseDecimal(field[4..]) == Some(pid as int)
  }

  /** A field shown as its tag followed by its value; it holds a space
      only when one of them does. */
  function Tagged(tag: string, value: string): (f: string)
    ensures ShowsText(f, tag, value)
    ensures ' ' in f <==> ' ' in tag || ' ' in value
  {
    tag + value
  }

  /** The `PID:%d` field: the pid reads back from the digits after the tag. */
  function PidField(pid: u32): (f: string)
    ensures ShowsPid(f, pid) && ' ' !in f
  {
    ParseDecimalOfDecimal(pid);
    Tagged("PID:", Decimal(pid))
  }

  /** A line whose first two fields are a tag and a `PID:%d` field opens
      with both, each followed by a space. */
  lemma LineOpens(f: seq<string>, tag: string, pid: u32)
    requires |f| >= 3 && f[0] == tag && f[1] == PidField(pid)
    ensures tag + " " + PidField(pid) + " " <= Join(f, " ")
  {
    JoinOpens(f, ' ');
  }

  /** With no space in the cleaned name or file, every openat field is a single word. */
  lemma OpenatFieldsAreWords(e: OpenatEvent)
    requires ' ' !in CleanString(e.common.comm) && ' ' !in CleanString(e.filename)
    ensures var f := OpenatFields(e);
      ' ' !in f[0] && ' ' !in f[1] && ' ' !in f[2] && ' ' !in f[3] && ' ' !in f[4]
  {
    assert ' ' !in "[OPENAT]" && ' ' !in "COMM:" && ' ' !in "FILE:";
  }

  /** With no space in the cleaned name or file, the first four execve
      fields are single words; only ARGS may hold spaces. */
  lemma ExecveFieldsAreWords(e: ExecveEvent)
    requires ' ' !in CleanString(e.common.comm) && ' ' !in CleanString(e.filename)
    ensures var f := ExecveFields(e); ' ' !in f[0] && ' ' !in f[1] && ' ' !in f[2] && ' ' !in f[3]
  {
    assert ' ' !in "[EXECVE]" && ' ' !in "COMM:" && ' ' !in "EXEC:";
  }

  /** With no space in the cleaned name, every connect field is a single word. */
  lemma ConnectFieldsAreWords(e: ConnectEvent)
    requires ' ' !in CleanString(e.common.comm)
    ensures var f := ConnectFields(e);
      ' ' !in f[0] && ' ' !in f[1] && ' ' !in f[2] && ' ' !in f[3] && ' ' !in f[4]
  {
    assert ' ' !in "[CONNECT]" && ' ' !in "COMM:";
  }

  /** A five-field line whose first four fields hold no space splits into
      them followed by the last field split in turn. */
  lemma SplitLine(f: seq<string>)
    requires |f| == 5
    ensures ' ' !in f[0] && ' ' !in f[1] && ' ' !in f[2] && ' ' !in f[3] ==>
              Split(Join(f, " "), ' ') == f[..4] + Split(f[4], ' ')
    ensures ' ' !in f[0] && ' ' !in f[1] && ' ' !in f[2] && ' ' !in f[3] && ' ' !in f[4] ==>
              Split(Join(f, " "), ' ') == f
  {
    if ' ' !in f[0] && ' ' !in f[1] && ' ' !in f[2] && ' ' !in f[3] {
      SplitFirstFour(f);
      if ' ' !in f[4] {
        SplitWithoutSeparator(f[4], ' ');
        assert f[..4] + [f[4]] == f;
      }
    }
  }

  lemma SplitFirstFour(f: seq<string>)
    requires |f| == 5 && ' ' !in f[0] && ' ' !in f[1] && ' ' !in f[2] && ' ' !in f[3]
    ensures Split(Join(f, " "), ' ') == f[..4] + Split(f[4], ' ')
  {
    forall k | 0 <= k < |f| - 1
      ensures ' ' !in f[k]
    {
      if k == 0 {} else if k == 1 {} else if k == 2 {} else {}
    }
    SplitJoinLast(f, ' ');
  }

  /** A line whose last field is `tag` followed by `value` ends with a space,
      the tag and the value. */
  lemma LineCloses(f: seq<string>, tag: string, value: string)
    requires |f| >= 2 && f[|f| - 1] == Tagged(tag, value)
    ensures EndsWith(Join(f, " "), " " + tag + value)
  {
    JoinCloses(f, ' ');
    assert [' '] + f[|f| - 1] == " " + tag + value;
  }

  /** `OpenatEvent.String`. */
  function OpenatLine(e: OpenatEvent): (line: string)
    ensures "[OPENAT]" + " " + PidField(e.common.pid) + " " <= line
    ensures EndsWith(line, " " + "RET:" + OpenatStatus(e.ret))
    // With no space in the name or the file, the line splits back into its fields.
    ensures ' ' !in CleanString(e.common.comm) && ' ' !in CleanString(e.filename) ==>
              Split(line, ' ') == OpenatFields(e)
  {
    var f := OpenatFields(e);
    SplitLine(f);
    LineOpens(f, "[OPENAT]", e.common.pid);
    LineCloses(f, "RET:", OpenatStatus(e.ret));
    if ' ' !in CleanString(e.common.comm) && ' ' !in CleanString(e.filename) then
      OpenatFieldsAreWords(e);
      Join(f, " ")
    else Join(f, " ")
  }

  /** The space-separated fields of `"[OPENAT] PID:%d COMM:%s FILE:%s RET:%s"`:
      each after its tag reads back as the value it shows. */
  function OpenatFields(e: OpenatEvent): (f: seq<string>)
    ensures |f| == 5 && f[0] == "[OPENAT]"
    ensures ShowsPid(f[1], e.common.pid) && ShowsText(f[2], "COMM:", CleanString(e.common.comm))
    ensures ShowsText(f[3], "FILE:", CleanString(e.filename))
    ensures ShowsText(f[4], "RET:", OpenatStatus(e.ret)) && ShowsOpenatRet(f[4], e.ret)
    ensures ' ' !in f[4]
  {
    var pid, comm := PidField(e.common.pid), Tagged("COMM:", CleanString(e.common.comm));
    var file, ret := Tagged("FILE:", CleanString(e.filename)), OpenatRetField(e.ret);
    var f := ["[OPENAT]", pid, comm, file, ret];
    assert f[1] == pid && f[2] == comm && f[3] == file && f[4] == ret;
    f
  }

  /** `field` is `RET:` followed by a status that reads back as `ret`. */
  predicate ShowsOpenatRet(field: string, ret: int32)
  {
    "RET:" <= field && ParseOpenatStatus(field[4..]) == Some(ret as int)
  }

  /** The `RET:%s` field of an openat line: the result reads back from the
      text after the tag. */
  function OpenatRetField(ret: int32): (f: string)
    ensures ShowsText(f, "RET:", OpenatStatus(ret)) && ShowsOpenatRet(f, ret)
    ensures ' ' !in f
  {
    OpenatStatusRoundTrip(ret);
    Tagged("RET:", OpenatStatus(ret))
  }

  /** The slots of an argument table that are non-empty once cut at their
      first NUL, cut, in table order. */
  function NonEmptyArgs(slots: seq<seq<byte>>): (args: seq<string>)
    ensures |args| <= |slots|
    ensures forall k :: 0 <= k < |args| ==> args[k] != ""
  {
    if |slots| == 0 then []
    else
      var a := CleanString(slots[0]);
      (if a == "" then [] else [a]) + NonEmptyArgs(slots[1..])
  }

  lemma NonEmptyArgsSingle(slot: seq<byte>)
    ensures NonEmptyArgs([slot]) == if CleanString(slot) == "" then [] else [CleanString(slot)]
  {
    assert [slot][1..] == [];
  }

  lemma NonEmptyArgsStep(argv: seq<seq<byte>>, i: nat)
    requires i < |argv|
    ensures var a := CleanString(argv[i]);
      NonEmptyArgs(argv[..i + 1]) == NonEmptyArgs(argv[..i]) + (if a == "" then [] else [a])
  {
    assert argv[..i + 1] == argv[..i] + [argv[i]];
    NonEmptyArgsAppend(argv[..i], [argv[i]]);
    NonEmptyArgsSingle(argv[i]);
  }

  /** The filter is a homomorphism: it treats each slot alone and keeps the
      order, so it is determined by what it does to a single slot. */
  lemma {:induction false} NonEmptyArgsAppend(a: seq<seq<byte>>, b: seq<seq<byte>>)
    ensures NonEmptyArgs(a + b) == NonEmptyArgs(a) + NonEmptyArgs(b)
    decreases |a|
  {
    if |a| == 0 {
      assert a + b == b;
    } else {
      assert (a + b)[0] == a[0];
      assert (a + b)[1..] == a[1..] + b;
      NonEmptyArgsAppend(a[1..], b);
    }
  }

  /** The loop of `ExecveEvent.String` that builds `argsList`. */
  method CollectArgs(argv: seq<seq<byte>>) returns (argsList: seq<string>)
    ensures argsList == NonEmptyArgs(argv)
  {
    argsList := [];
    var i := 0;
    while i < |argv|
      invariant 0 <= i <= |argv|
      invariant argsList == NonEmptyArgs(argv[..i])
    {
      var argStr := CleanString(argv[i]);
      if argStr != "" {
        argsList := argsList + [argStr];
      }
      NonEmptyArgsStep(argv, i);
      i := i + 1;
    }
    assert argv[..|argv|] == argv;
  }

  /** The ARGS field of `ExecveEvent.String`. */
  function ExecveArgs(e: ExecveEvent): (args: string)
    ensures args == "" <==> |NonEmptyArgs(e.argv)| == 0
  {
    Join(NonEmptyArgs(e.argv), " ")
  }

  /** When no argument holds a space, the ARGS field splits back into
      exactly the non-empty arguments, in order. */
  lemma ExecveArgsSplit(e: ExecveEvent)
    requires |NonEmptyArgs(e.argv)| >= 1
    requires forall k :: 0 <= k < |NonEmptyArgs(e.argv)| ==> ' ' !in NonEmptyArgs(e.argv)[k]
    ensures Split(ExecveArgs(e), ' ') == NonEmptyArgs(e.argv)
  {
    SplitJoin(NonEmptyArgs(e.argv), ' ');
  }

  /** `ExecveEvent.String`. */
  function ExecveLine(e: ExecveEvent): (line: string)
    ensures "[EXECVE]" + " " + PidField(e.common.pid) + " " <= line
    ensures EndsWith(line, " " + "ARGS:" + ExecveArgs(e))
    // With no space in the name or the file, the line splits into its first
    // four fields followed by the ARGS field split at its own spaces.
    ensures ' ' !in CleanString(e.common.comm) && ' ' !in CleanString(e.filename) ==>
              Split(line, ' ') == ExecveFields(e)[..4] + Split(ExecveFields(e)[4], ' ')
  {
    var f := ExecveFields(e);
    SplitLine(f);
    LineOpens(f, "[EXECVE]", e.common.pid);
    LineCloses(f, "ARGS:", ExecveArgs(e));
    if ' ' !in CleanString(e.common.comm) && ' ' !in CleanString(e.filename) then
      ExecveFieldsAreWords(e);
      Join(f, " ")
    else Join(f, " ")
  }

  /** The space-separated fields of `"[EXECVE] PID:%d COMM:%s EXEC:%s ARGS:%s"`:
      each after its tag reads back as the value it shows. */
  function ExecveFields(e: ExecveEvent): (f: seq<string>)
    ensures |f| == 5 && f[0] == "[EXECVE]"
    ensures ShowsPid(f[1], e.common.pid) && ShowsText(f[2], "COMM:", CleanString(e.common.comm))
    ensures ShowsText(f[3], "EXEC:", CleanString(e.filename))
    ensures ShowsText(f[4], "ARGS:", ExecveArgs(e))
  {
    var pid, comm := PidField(e.common.pid), Tagged("COMM:", CleanString(e.common.comm));
    var exec, args := Tagged("EXEC:", CleanString(e.filename)), Tagged("ARGS:", ExecveArgs(e));
    var f := ["[EXECVE]", pid, comm, exec, args];
    assert f[1] == pid && f[2] == comm && f[3] == exec && f[4] == args;
    f
  }

  /** `ConnectEvent.String`. */
  function ConnectLine(e: ConnectEvent): (line: string)
    ensures "[CONNECT]" + " " + PidField(e.common.pid) + " " <= line
    ensures EndsWith(line, " " + "RET:" + ConnectStatus(e.ret))
    // With no space in the name, the line splits back into its fields.
    ensures ' ' !in CleanString(e.common.comm) ==> Split(line, ' ') == ConnectFields(e)
  {
    var f := ConnectFields(e);
    SplitLine(f);
    LineOpens(f, "[CONNECT]", e.common.pid);
    LineCloses(f, "RET:", ConnectStatus(e.ret));
    if ' ' !in CleanString(e.common.comm) then
      ConnectFieldsAreWords(e);
      Join(f, " ")
    else Join(f, " ")
  }

  /** The space-separated fields of `"[CONNECT] PID:%d COMM:%s ADDR:%s:%d RET:%s"`:
      each after its tag reads back as the value it shows; the port is shown
      in host order. */
  function ConnectFields(e: ConnectEvent): (f: seq<string>)
    ensures |f| == 5 && f[0] == "[CONNECT]"
    ensures ShowsPid(f[1], e.common.pid) && ShowsText(f[2], "COMM:", CleanString(e.common.comm))
    ensures ShowsAddr(f[3], e.ip, e.port)
    ensures ShowsText(f[4], "RET:", ConnectStatus(e.ret)) && ShowsConnectRet(f[4], e.ret)
    ensures ' ' !in f[4]
  {
    var pid, comm := PidField(e.common.pid), Tagged("COMM:", CleanString(e.common.comm));
    var addr, ret := AddrField(e.ip, e.port), ConnectRetField(e.ret);
    var f := ["[CONNECT]", pid, comm, addr, ret];
    assert f[1] == pid && f[2] == comm && f[3] == addr && f[4] == ret;
    f
  }

  /** `field` is `ADDR:`, the dotted address and a colon, followed by digits
      that read back as the port in host order. */
  predicate ShowsAddr(field: string, ip: u32, port: bv16)
  {
    var a := "ADDR:" + DottedQuad(Int2IP(ip)) + ":";
    a <= field && ParseDecimal(field[|a|..]) == Some(Ntohs(port) as int)
  }

  /** `field` is `RET:SUCCESS` exactly when the connect succeeded, and
      otherwise `RET:ERR:` followed by digits that read back as the result. */
  predicate ShowsConnectRet(field: string, ret: int32)
  {
    && "RET:" <= field
    && (field[4..] == "SUCCESS" <==> ret >= 0)
    && (ret < 0 ==> "RET:ERR:" <= field && ParseDecimal(field[8..]) == Some(ret as int))
  }

  /** The `ADDR:%s:%d` field: after the dotted address and its colon, the
      port reads back in host order. */
  function AddrField(ip: u32, port: bv16): (f: string)
    ensures ShowsAddr(f, ip, port) && ' ' !in f
  {
    ParseDecimalOfDecimal(Ntohs(port) as int);
    Tagged("ADDR:" + DottedQuad(Int2IP(ip)) + ":", Decimal(Ntohs(port) as int))
  }

  /** The `RET:%s` field of a connect line. */
  function ConnectRetField(ret: int32): (f: string)
    ensures ShowsText(f, "RET:", ConnectStatus(ret)) && ShowsConnectRet(f, ret)
    ensures ' ' !in f
  {
    var f := Tagged("RET:", ConnectStatus(ret));
    assert f[8..] == ConnectStatus(ret)[4..];
    f
  }

  /** An `OpenatEvent` line identifies the process and the result of the
      call, whatever the name and path buffers hold. */
  lemma OpenatLineIdentifies(a: OpenatEvent, b: OpenatEvent)
    requires OpenatLine(a) == OpenatLine(b)
    ensures a.common.pid == b.common.pid
    ensures a.ret == b.ret
  {
    var fa, fb := OpenatFields(a), OpenatFields(b);
    SamePid(fa, fb, a.common.pid, b.common.pid);
    JoinLastField(fa, fb, ' ');
  }

  /** A `ConnectEvent` line identifies the process, whether the call
      succeeded, and the error code when it did not. */
  lemma ConnectLineIdentifies(a: ConnectEvent, b: ConnectEvent)
    requires ConnectLine(a) == ConnectLine(b)
    ensures a.common.pid == b.common.pid
    ensures (a.ret >= 0) == (b.ret >= 0)
    ensures a.ret < 0 ==> a.ret == b.ret
  {
    var fa, fb := ConnectFields(a), ConnectFields(b);
    SamePid(fa, fb, a.common.pid, b.common.pid);
    JoinLastField(fa, fb, ' ');
    ConnectRetDetermines(fa[4], a.ret, b.ret);
  }

  /** Two lines that agree, and whose second fields are `PID:` fields, show
      the same pid. */
  lemma SamePid(fa: seq<string>, fb: seq<string>, pa: u32, pb: u32)
    requires |fa| >= 3 && |fb| >= 3 && fa[0] == fb[0]
    requires fa[1] == PidField(pa) && fb[1] == PidField(pb)
    requires Join(fa, " ") == Join(fb, " ")
    ensures pa == pb
  {
    JoinSecondField(fa, fb, ' ', "PID:", Decimal(pa), Decimal(pb));
    DecimalInjective(pa, pb);
  }

  /** A connect RET field shows whether the call succeeded, and the code
      when it did not. */
  lemma ConnectRetDetermines(field: string, x: int32, y: int32)
    requires ShowsConnectRet(field, x) && ShowsConnectRet(field, y)
    ensures (x >= 0) == (y >= 0)
    ensures x < 0 ==> x == y
  {
  }

  /** An `ExecveEvent` line identifies the process. */
  lemma ExecveLineIdentifiesPid(a: ExecveEvent, b: ExecveEvent)
    requires ExecveLine(a) == ExecveLine(b)
    ensures a.common.pid == b.common.pid
  {
    var fa, fb := ExecveFields(a), ExecveFields(b);
    SamePid(fa, fb, a.common.pid, b.common.pid);
  }
}
