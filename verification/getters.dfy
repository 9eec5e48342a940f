/** The field-lookup layer of internal/events/getters.go: `decodeOpenFlags`,
    the ptrace request-name table, `getCommonField`, and each event type's
    `GetType` / `GetField`. A Go `(interface{}, bool)` result is an
    `Option<FieldValue>`. */
module Getters {
  import opened Machine
  import opened Wrappers
  import opened Text
  import opened Events

  // open(2) flag values on Linux x86-64.
  const O_ACCMODE: bv32 := 3
  const O_RDONLY: bv32 := 0
  const O_WRONLY: bv32 := 1
  const O_RDWR: bv32 := 2
  const O_CREAT: bv32 := 0x40
  const O_EXCL: bv32 := 0x80
  const O_NOCTTY: bv32 := 0x100
  const O_TRUNC: bv32 := 0x200
  const O_APPEND: bv32 := 0x400
  const O_NONBLOCK: bv32 := 0x800
  const O_DSYNC: bv32 := 0x1000
  const O_SYNC: bv32 := 0x10_1000
  const O_CLOEXEC: bv32 := 0x8_0000

  /** The names `decodeOpenFlags` can emit, one per test it makes. */
  datatype OpenFlag =
    | RDONLY | WRONLY | RDWR
    | CREAT | EXCL | NOCTTY | TRUNC | APPEND | NONBLOCK | DSYNC | SYNC | CLOEXEC
  {
    predicate IsAccessMode() {
      RDONLY? || WRONLY? || RDWR?
    }

    /** The mask tested for a non-access flag. */
    function Mask(): bv32
      requires !IsAccessMode()
    {
      match this
      case CREAT => O_CREAT
      case EXCL => O_EXCL
      case NOCTTY => O_NOCTTY
      case TRUNC => O_TRUNC
      case APPEND => O_APPEND
      case NONBLOCK => O_NONBLOCK
      case DSYNC => O_DSYNC
      case SYNC => O_SYNC
      case CLOEXEC => O_CLOEXEC
    }

    /** The decoder's test for a non-access flag: some bit of its mask is set. */
    predicate FiresOn(f: bv32)
      requires !IsAccessMode()
    {
      f & Mask() != 0
    }

    /** Position in the order the decoder tests and appends. */
    function Rank(): nat
    {
      match this
      case RDONLY => 0
      case WRONLY => 0
      case RDWR => 0
      case CREAT => 1
      case EXCL => 2
      case NOCTTY => 3
      case TRUNC => 4
      case APPEND => 5
      case NONBLOCK => 6
      case DSYNC => 7
      case SYNC => 8
      case CLOEXEC => 9
    }

    function Name(): string
    {
      match this
      case RDONLY => "O_RDONLY"
      case WRONLY => "O_WRONLY"
      case RDWR => "O_RDWR"
      case CREAT => "O_CREAT"
      case EXCL => "O_EXCL"
      case NOCTTY => "O_NOCTTY"
      case TRUNC => "O_TRUNC"
      case APPEND => "O_APPEND"
      case NONBLOCK => "O_NONBLOCK"
      case DSYNC => "O_DSYNC"
      case SYNC => "O_SYNC"
      case CLOEXEC => "O_CLOEXEC"
    }
  }

  /** The `switch f & syscall.O_ACCMODE`: no case matches mode 3. */
  function AccessMode(f: bv32): (r: seq<OpenFlag>)
    ensures |r| <= 1 && forall i :: 0 <= i < |r| ==> r[i].IsAccessMode()
    ensures |r| == 1 <==> f & O_ACCMODE != O_ACCMODE
    ensures f & O_ACCMODE == O_RDONLY ==> r == [RDONLY]
    ensures f & O_ACCMODE == O_WRONLY ==> r == [WRONLY]
    ensures f & O_ACCMODE == O_RDWR ==> r == [RDWR]
  {
    var mode := f & O_ACCMODE;
    if mode == O_RDONLY then [RDONLY]
    else if mode == O_WRONLY then [WRONLY]
    else if mode == O_RDWR then [RDWR]
    else []
  }

  /** One `if f&mask != 0 { res = append(res, name) }`: any bit of the mask counts. */
  function Test(f: bv32, flag: OpenFlag): (r: seq<OpenFlag>)
    requires !flag.IsAccessMode()
    ensures flag in r <==> flag.FiresOn(f)
    ensures r == [] || r == [flag]
  {
    if flag.FiresOn(f) then [flag] else []
  }

  /** The k-th single-flag test (0-based) after the access mode, in the
      order the decoder makes them. */
  function FlagTest(k: nat): (flag: OpenFlag)
    requires k < 9
    ensures !flag.IsAccessMode() && flag.Rank() == k + 1
  {
    match k
    case 0 => CREAT
    case 1 => EXCL
    case 2 => NOCTTY
    case 3 => TRUNC
    case 4 => APPEND
    case 5 => NONBLOCK
    case 6 => DSYNC
    case 7 => SYNC
    case _ => CLOEXEC
  }

  /** Every flag that is not an access mode has a test of its own, placed by its rank. */
  lemma FlagTestOfRank(x: OpenFlag)
    requires !x.IsAccessMode()
    ensures 1 <= x.Rank() <= 9 && FlagTest(x.Rank() - 1) == x
  {
  }

  /** The tests from the k-th on, each appending to what came before. */
  function Tests(f: bv32, k: nat): (r: seq<OpenFlag>)
    requires k <= 9
    ensures |r| <= 9 - k
    decreases 9 - k
  {
    if k == 9 then [] else Test(f, FlagTest(k)) + Tests(f, k + 1)
  }

  /** `decodeOpenFlags` before the names are spelled out. */
  function OpenFlags(f: bv32): (r: seq<OpenFlag>)
    ensures |r| <= 10
  {
    AccessMode(f) + Tests(f, 0)
  }

  /** `decodeOpenFlags`. */
  function DecodeOpenFlags(f: bv32): (names: seq<string>)
    ensures |names| == |OpenFlags(f)|
    ensures forall i :: 0 <= i < |names| ==> names[i] == OpenFlags(f)[i].Name()
  {
    var flags := OpenFlags(f);
    seq(|flags|, i requires 0 <= i < |flags| => flags[i].Name())
  }

  /** Strictly increasing in test order. */
  predicate InTestOrder(r: seq<OpenFlag>)
  {
    forall i, j :: 0 <= i < j < |r| ==> r[i].Rank() < r[j].Rank()
  }

  /** The tests from the k-th on list only flags tested at or after the
      k-th whose mask has a bit set. */
  lemma {:induction false} ListedFlagFires(f: bv32, k: nat, x: OpenFlag)
    requires k <= 9 && x in Tests(f, k)
    ensures !x.IsAccessMode() && x.Rank() > k && x.FiresOn(f)
    decreases 9 - k
  {
    if k < 9 {
      var head := Test(f, FlagTest(k));
      assert Tests(f, k) == head + Tests(f, k + 1);
      if x in Tests(f, k + 1) {
        ListedFlagFires(f, k + 1, x);
      } else {
        assert x in head;
        assert x == FlagTest(k);
      }
    }
  }

  /** The k-th test lists its flag when the flag fires. */
  lemma HeadListed(f: bv32, k: nat, x: OpenFlag)
    requires k < 9 && FlagTest(k) == x && x.FiresOn(f)
    ensures x in Tests(f, k)
  {
    assert Tests(f, k)[0] == x;
  }

  /** What a later test lists stays listed. */
  lemma TailListed(f: bv32, k: nat, x: OpenFlag)
    requires k < 9 && x in Tests(f, k + 1)
    ensures x in Tests(f, k)
  {
  }

  /** Every flag tested at or after the k-th whose mask has a bit set is listed. */
  lemma {:induction false} FiringFlagListed(f: bv32, k: nat, x: OpenFlag)
    requires k <= 9
    requires !x.IsAccessMode() && x.Rank() > k && x.FiresOn(f)
    ensures x in Tests(f, k)
    decreases 9 - k
  {
    FlagTestOfRank(x);
    if x.Rank() == k + 1 {
      HeadListed(f, k, x);
    } else {
      FiringFlagListed(f, k + 1, x);
      TailListed(f, k, x);
    }
  }

  /** The tests from the k-th on list a flag exactly when its test comes
      at or after the k-th and some bit of its mask is set. */
  lemma TestsMembership(f: bv32, k: nat, x: OpenFlag)
    requires k <= 9
    ensures x in Tests(f, k) <==> !x.IsAccessMode() && x.Rank() > k && x.FiresOn(f)
  {
    if x in Tests(f, k) {
      ListedFlagFires(f, k, x);
    }
    if !x.IsAccessMode() && x.Rank() > k && x.FiresOn(f) {
      FiringFlagListed(f, k, x);
    }
  }

  /** Two runs in test order, the first ranking below the second, join in test order. */
  lemma AppendInTestOrder(a: seq<OpenFlag>, t: seq<OpenFlag>)
    requires InTestOrder(a) && InTestOrder(t)
    requires forall x, y :: x in a && y in t ==> x.Rank() < y.Rank()
    ensures InTestOrder(a + t)
  {
    var r := a + t;
    forall i, j | 0 <= i < j < |r|
      ensures r[i].Rank() < r[j].Rank()
    {
      if i < |a| && j >= |a| {
        assert r[i] in a && r[j] in t;
      }
    }
  }

  /** The tests from the k-th on list flags in test order, all ranking after the k-th. */
  lemma {:induction false} TestsOrdered(f: bv32, k: nat)
    requires k <= 9
    ensures InTestOrder(Tests(f, k))
    ensures forall y :: y in Tests(f, k) ==> !y.IsAccessMode() && y.Rank() > k
    decreases 9 - k
  {
    if k < 9 {
      var head, tail := Test(f, FlagTest(k)), Tests(f, k + 1);
      assert Tests(f, k) == head + tail;
      TestsOrdered(f, k + 1);
      assert forall x :: x in head ==> x == FlagTest(k);
      AppendInTestOrder(head, tail);
    }
  }

  /** The access-mode part is at most one flag, of rank 0. */
  lemma AccessModeRanksFirst(f: bv32)
    ensures InTestOrder(AccessMode(f))
    ensures forall x :: x in AccessMode(f) ==> x.IsAccessMode() && x.Rank() == 0
  {
  }

  /** `decodeOpenFlags` appends in test order, so no flag comes twice. */
  lemma OpenFlagsOrdered(f: bv32)
    ensures InTestOrder(OpenFlags(f))
  {
    AccessModeRanksFirst(f);
    TestsOrdered(f, 0);
    AppendInTestOrder(AccessMode(f), Tests(f, 0));
  }

  /** Behind a part of at most one flag, only flags of the rest follow. */
  lemma OnlyFirstFromHead(a: seq<OpenFlag>, t: seq<OpenFlag>)
    requires |a| <= 1
    requires forall y :: y in t ==> !y.IsAccessMode()
    ensures forall i :: 0 < i < |a + t| ==> !(a + t)[i].IsAccessMode()
  {
    var r := a + t;
    forall i | 0 < i < |r|
      ensures !r[i].IsAccessMode()
    {
      assert r[i] == t[i - |a|];
    }
  }

  /** An access-mode flag can only come first. */
  lemma OpenFlagsAccessModeLeads(f: bv32)
    ensures forall i :: 0 < i < |OpenFlags(f)| ==> !OpenFlags(f)[i].IsAccessMode()
  {
    TestsOrdered(f, 0);
    OnlyFirstFromHead(AccessMode(f), Tests(f, 0));
  }

  /** An access-mode flag leads exactly when the mode is not 3. */
  lemma OpenFlagsAccessMode(f: bv32)
    ensures f & O_ACCMODE != O_ACCMODE <==> |OpenFlags(f)| >= 1 && OpenFlags(f)[0].IsAccessMode()
  {
    var t := Tests(f, 0);
    TestsOrdered(f, 0);
    if |AccessMode(f)| == 0 && |t| > 0 {
      assert t[0] in t;
    }
  }

  /** Each of the nine non-access flags is listed exactly when some bit of
      its mask is set in the flags. */
  lemma OpenFlagsMembership(f: bv32, flag: OpenFlag)
    requires !flag.IsAccessMode()
    ensures flag in OpenFlags(f) <==> f & flag.Mask() != 0
  {
    OpenFlagsTestsPart(f, flag);
    TestsMembership(f, 0, flag);
    assert flag.FiresOn(f) <==> f & flag.Mask() != 0;
  }

  /** A non-access flag is listed exactly when the tests list it. */
  lemma OpenFlagsTestsPart(f: bv32, flag: OpenFlag)
    requires !flag.IsAccessMode()
    ensures flag in OpenFlags(f) <==> flag in Tests(f, 0)
  {
    var a, t := AccessMode(f), Tests(f, 0);
    assert OpenFlags(f) == a + t;
    assert flag !in a;
  }

  /** A flag whose mask lies inside another's is never listed without it. */
  lemma ListedWithWiderMask(f: bv32, x: OpenFlag, y: OpenFlag)
    requires !x.IsAccessMode() && !y.IsAccessMode()
    requires x.Mask() & y.Mask() == x.Mask()
    requires x in OpenFlags(f)
    ensures y in OpenFlags(f)
  {
    OpenFlagsMembership(f, x);
    OpenFlagsMembership(f, y);
  }

  /** The `O_SYNC` test fires on `O_SYNC`'s `O_DSYNC` bit alone, so every
      open reported `O_DSYNC` is also reported `O_SYNC`. */
  lemma DsyncIsAlsoReportedAsSync(f: bv32)
    requires DSYNC in OpenFlags(f)
    ensures SYNC in OpenFlags(f)
  {
    ListedWithWiderMask(f, DSYNC, SYNC);
  }

  /** `O_DSYNC` alone decodes with `O_SYNC` after it. */
  lemma DsyncAloneDecodes()
    ensures DecodeOpenFlags(O_DSYNC) == ["O_RDONLY", "O_DSYNC", "O_SYNC"]
  {
    assert OpenFlags(O_DSYNC) == [RDONLY, DSYNC, SYNC];
  }

  /** `O_WRONLY|O_CREAT|O_TRUNC` (0x241), the flags of a file written afresh. */
  lemma WriteAfreshFlags()
    ensures OpenFlags(0x241) == [WRONLY, CREAT, TRUNC]
  {
  }

  lemma WriteAfreshDecodes()
    ensures DecodeOpenFlags(O_WRONLY | O_CREAT | O_TRUNC) == ["O_WRONLY", "O_CREAT", "O_TRUNC"]
  {
    assert O_WRONLY | O_CREAT | O_TRUNC == 0x241;
    WriteAfreshFlags();
  }

  /** Access mode 3 with nothing else decodes to no names at all. */
  lemma ModeThreeDecodesEmpty()
    ensures DecodeOpenFlags(O_ACCMODE) == []
  {
    assert OpenFlags(O_ACCMODE) == [];
  }

  /** No flag name holds the `,` the flags field is joined with. */
  lemma NameHasNoComma(x: OpenFlag)
    ensures ',' !in x.Name() && "O_" <= x.Name()
  {
  }

  /** The `evt.arg.flags` text: the decoded names joined by `,`. */
  function FlagsText(f: bv32): (text: string)
    ensures text == "" <==> |OpenFlags(f)| == 0
  {
    var names := DecodeOpenFlags(f);
    if |names| >= 1 then
      NameHasNoComma(OpenFlags(f)[0]);
      Join(names, ",")
    else Join(names, ",")
  }

  /** Splitting the flags text at `,` gives back the decoded names, unless
      there were none (mode 3 and no other flag), when the text is empty. */
  lemma FlagsTextSplits(f: bv32)
    ensures |OpenFlags(f)| == 0 ==> FlagsText(f) == ""
    ensures |OpenFlags(f)| >= 1 ==> Split(FlagsText(f), ',') == DecodeOpenFlags(f)
  {
    var names := DecodeOpenFlags(f);
    if |names| >= 1 {
      forall k | 0 <= k < |names|
        ensures ',' !in names[k]
      {
        NameHasNoComma(OpenFlags(f)[k]);
      }
      SplitJoin(names, ',');
    }
  }

  // ---------------------------------------------------------------------
  // Field values

  /** What a `GetField` returns inside its `interface{}`. The helpers
      `BytesToString`, `ExtractArgs`, `IntToIP` and the exported `Ntohs`
      are not part of this model, so their results are kept as the raw
      input they are applied to. */
  datatype FieldValue =
    | Int(i: int)               // an `int(...)` conversion
    | Str(s: string)            // a string the getter builds itself
    | BytesText(raw: seq<byte>) // `BytesToString(raw)`
    | ArgsText(table: ArgTable) // `strings.Join(ExtractArgs(table), " ")`
    | IPText(ip: u32)           // `IntToIP(ip)`
    | PortText(port: bv16)      // `int(Ntohs(port))`

  /** The seven names every event answers through its common header. */
  const COMMON_NAMES: set<string> :=
    {"proc.pid", "proc.ppid", "proc.uid", "proc.gid", "proc.cgroup", "proc.name", "proc.pname"}

  /** `getCommonField`. */
  function CommonField(c: CommonEvent, name: string): (v: Option<FieldValue>)
    ensures v.Some? <==> name in COMMON_NAMES
    ensures name == "proc.pid" ==> v == Some(Int(c.pid))
    ensures name == "proc.ppid" ==> v == Some(Int(c.ppid))
    ensures name == "proc.uid" ==> v == Some(Int(c.uid))
    ensures name == "proc.gid" ==> v == Some(Int(c.gid))
    ensures name == "proc.cgroup" ==> v == Some(Int(Uint64ToInt(c.cgroupId)))
    ensures name == "proc.name" ==> v == Some(BytesText(c.comm))
    ensures name == "proc.pname" ==> v == Some(BytesText(c.pcomm))
  {
    match name
    case "proc.pid" => Some(Int(c.pid))
    case "proc.ppid" => Some(Int(c.ppid))
    case "proc.uid" => Some(Int(c.uid))
    case "proc.gid" => Some(Int(c.gid))
    case "proc.cgroup" => Some(Int(Uint64ToInt(c.cgroupId)))
    case "proc.name" => Some(BytesText(c.comm))
    case "proc.pname" => Some(BytesText(c.pcomm))
    case _ => None
  }

  // ---------------------------------------------------------------------
  // Event types whose declarations are not part of this model; the field
  // widths are those the getters' conversions imply.

  /** `AcceptEvent`. */
  datatype AcceptEvent = AcceptEvent(common: CommonEvent, ret: int32, ip: u32, port: bv16)

  /** `PtraceEvent`. */
  datatype PtraceEvent = PtraceEvent(common: CommonEvent, request: u64, targetPid: u32, addr: u64, ret: int64)

  /** `MemfdEvent`. */
  datatype MemfdEvent = MemfdEvent(common: CommonEvent, name: seq<byte>, flags: u32, ret: int32)

  /** `ChmodEvent`. */
  datatype ChmodEvent = ChmodEvent(common: CommonEvent, filename: seq<byte>, mode: u32, ret: int32)

  // ---------------------------------------------------------------------
  // ptrace request names

  /** `ptraceRequests`: the request codes that are shown by name. */
  const PTRACE_REQUESTS: map<u64, string> := map[
    0 := "PTRACE_TRACEME",
    1 := "PTRACE_PEEKTEXT",
    2 := "PTRACE_PEEKDATA",
    3 := "PTRACE_PEEKUSER",
    4 := "PTRACE_POKETEXT",
    5 := "PTRACE_POKEDATA",
    6 := "PTRACE_POKEUSER",
    7 := "PTRACE_CONT",
    8 := "PTRACE_KILL",
    9 := "PTRACE_SINGLESTEP",
    16 := "PTRACE_ATTACH",
    17 := "PTRACE_DETACH",
    24 := "PTRACE_SYSCALL",
    0x4200 := "PTRACE_SETOPTIONS",
    0x4201 := "PTRACE_GETEVENTMSG",
    0x4202 := "PTRACE_GETSIGINFO",
    0x4203 := "PTRACE_SETSIGINFO",
    0x4206 := "PTRACE_SEIZE",
    0x4207 := "PTRACE_INTERRUPT",
    0x4208 := "PTRACE_LISTEN",
    0x420E := "PTRACE_GETREGSET",
    0x420F := "PTRACE_SETREGSET"
  ]

  /** The `evt.arg.request` value: the table's name for a known request,
      otherwise the request as a Go `int`. */
  function RequestValue(request: u64): (v: FieldValue)
    ensures v.Str? <==> request in PTRACE_REQUESTS
    ensures v.Int? ==> v.i == request as int || v.i == request as int - 0x1_0000_0000_0000_0000
  {
    if request in PTRACE_REQUESTS then Str(PTRACE_REQUESTS[request]) else Int(Uint64ToInt(request))
  }

  /** `fmt.Sprintf("0x%x", addr)`. */
  function HexText(addr: u64): (s: string)
    ensures |s| >= 3 && s[..2] == "0x"
  {
    "0x" + Digits(addr, 16)
  }

  /** The address text reads back as the address. */
  lemma HexTextRoundTrip(addr: u64)
    ensures ParseUnsigned(HexText(addr)[2..], 16) == Some(addr as nat)
  {
    ValueOfDigits(addr, 16);
    assert HexText(addr)[2..] == Digits(addr, 16);
  }

  /** `fmt.Sprintf("0%o", mode)`: a leading 0 before the octal digits, so mode 0 shows as "00". */
  function OctalText(mode: u32): (s: string)
    ensures |s| >= 2 && s[0] == '0'
  {
    "0" + Digits(mode, 8)
  }

  /** The mode text reads back as the mode. */
  lemma OctalTextRoundTrip(mode: u32)
    ensures ParseUnsigned(OctalText(mode)[1..], 8) == Some(mode as nat)
  {
    ValueOfDigits(mode, 8);
    assert OctalText(mode)[1..] == Digits(mode, 8);
  }

  // ---------------------------------------------------------------------
  // GetField per event type: own names first, then `getCommonField`

  const OPENAT_NAMES: set<string> := {"fd.name", "evt.arg.filename", "evt.arg.flags", "evt.res", "fd.num"}
  const EXECVE_NAMES: set<string> := {"proc.exepath", "evt.arg.filename", "proc.cmdline", "proc.args", "proc.env", "evt.res"}
  const CONNECT_NAMES: set<string> := {"fd.num", "fd.ip", "fd.sip", "fd.port", "fd.sport", "evt.res"}
  const ACCEPT_NAMES: set<string> := {"fd.num", "evt.res", "fd.ip", "fd.rip", "fd.port", "fd.rport"}
  const PTRACE_NAMES: set<string> := {"evt.arg.request", "proc.target_pid", "evt.arg.addr", "evt.res"}
  const MEMFD_NAMES: set<string> := {"evt.arg.name", "evt.arg.flags", "evt.res", "fd.num"}
  const CHMOD_NAMES: set<string> := {"fd.name", "evt.arg.filename", "evt.arg.mode", "evt.res"}

  /** `(*OpenatEvent).GetField`. */
  function OpenatField(e: OpenatEvent, name: string): (v: Option<FieldValue>)
    ensures v.Some? <==> name in OPENAT_NAMES || name in COMMON_NAMES
    ensures name !in OPENAT_NAMES ==> v == CommonField(e.common, name)
    ensures name == "fd.name" || name == "evt.arg.filename" ==> v == Some(BytesText(e.filename))
    ensures name == "evt.arg.flags" ==> v == Some(Str(FlagsText(e.flags)))
    ensures name == "evt.res" || name == "fd.num" ==> v == Some(Int(e.ret))
  {
    match name
    case "fd.name" | "evt.arg.filename" => Some(BytesText(e.filename))
    case "evt.arg.flags" => Some(Str(FlagsText(e.flags)))
    case "evt.res" | "fd.num" => Some(Int(e.ret))
    case _ => CommonField(e.common, name)
  }

  /** `(*ExecveEvent).GetField`. */
  function ExecveField(e: ExecveEvent, name: string): (v: Option<FieldValue>)
    ensures v.Some? <==> name in EXECVE_NAMES || name in COMMON_NAMES
    ensures name !in EXECVE_NAMES ==> v == CommonField(e.common, name)
    ensures name == "proc.exepath" || name == "evt.arg.filename" ==> v == Some(BytesText(e.filename))
    ensures name == "proc.cmdline" || name == "proc.args" ==> v == Some(ArgsText(e.argv))
    ensures name == "proc.env" ==> v == Some(ArgsText(e.envp))
    ensures name == "evt.res" ==> v == Some(Int(e.ret))
  {
    match name
    case "proc.exepath" | "evt.arg.filename" => Some(BytesText(e.filename))
    case "proc.cmdline" | "proc.args" => Some(ArgsText(e.argv))
    case "proc.env" => Some(ArgsText(e.envp))
    case "evt.res" => Some(Int(e.ret))
    case _ => CommonField(e.common, name)
  }

  /** `(*ConnectEvent).GetField`. */
  function ConnectField(e: ConnectEvent, name: string): (v: Option<FieldValue>)
    ensures v.Some? <==> name in CONNECT_NAMES || name in COMMON_NAMES
    ensures name !in CONNECT_NAMES ==> v == CommonField(e.common, name)
    ensures name == "fd.num" ==> v == Some(Int(e.fd))
    ensures name == "fd.ip" || name == "fd.sip" ==> v == Some(IPText(e.ip))
    ensures name == "fd.port" || name == "fd.sport" ==> v == Some(PortText(e.port))
    ensures name == "evt.res" ==> v == Some(Int(e.ret))
  {
    match name
    case "fd.num" => Some(Int(e.fd))
    case "fd.ip" | "fd.sip" => Some(IPText(e.ip))
    case "fd.port" | "fd.sport" => Some(PortText(e.port))
    case "evt.res" => Some(Int(e.ret))
    case _ => CommonField(e.common, name)
  }

  /** `(*AcceptEvent).GetField`. */
  function AcceptField(e: AcceptEvent, name: string): (v: Option<FieldValue>)
    ensures v.Some? <==> name in ACCEPT_NAMES || name in COMMON_NAMES
    ensures name !in ACCEPT_NAMES ==> v == CommonField(e.common, name)
    ensures name == "fd.num" || name == "evt.res" ==> v == Some(Int(e.ret))
    ensures name == "fd.ip" || name == "fd.rip" ==> v == Some(IPText(e.ip))
    ensures name == "fd.port" || name == "fd.rport" ==> v == Some(PortText(e.port))
  {
    match name
    case "fd.num" | "evt.res" => Some(Int(e.ret))
    case "fd.ip" | "fd.rip" => Some(IPText(e.ip))
    case "fd.port" | "fd.rport" => Some(PortText(e.port))
    case _ => CommonField(e.common, name)
  }

  /** `(*PtraceEvent).GetField`, without the log line it writes. */
  function PtraceField(e: PtraceEvent, name: string): (v: Option<FieldValue>)
    ensures v.Some? <==> name in PTRACE_NAMES || name in COMMON_NAMES
    ensures name !in PTRACE_NAMES ==> v == CommonField(e.common, name)
    ensures name == "evt.arg.request" ==> v == Some(RequestValue(e.request))
    ensures name == "proc.target_pid" ==> v == Some(Int(e.targetPid))
    ensures name == "evt.arg.addr" ==> v.Some? && v.value.Str? && v.value.s == HexText(e.addr)
    ensures name == "evt.arg.addr" ==> ParseUnsigned(v.value.s[2..], 16) == Some(e.addr as nat)
    ensures name == "evt.res" ==> v == Some(Int(e.ret))
  {
    match name
    case "evt.arg.request" => Some(RequestValue(e.request))
    case "proc.target_pid" => Some(Int(e.targetPid))
    case "evt.arg.addr" => HexTextRoundTrip(e.addr); Some(Str(HexText(e.addr)))
    case "evt.res" => Some(Int(e.ret))
    case _ => CommonField(e.common, name)
  }

  /** `(*MemfdEvent).GetField`. */
  function MemfdField(e: MemfdEvent, name: string): (v: Option<FieldValue>)
    ensures v.Some? <==> name in MEMFD_NAMES || name in COMMON_NAMES
    ensures name !in MEMFD_NAMES ==> v == CommonField(e.common, name)
    ensures name == "evt.arg.name" ==> v == Some(BytesText(e.name))
    ensures name == "evt.arg.flags" ==> v == Some(Int(e.flags))
    ensures name == "evt.res" || name == "fd.num" ==> v == Some(Int(e.ret))
  {
    match name
    case "evt.arg.name" => Some(BytesText(e.name))
    case "evt.arg.flags" => Some(Int(e.flags))
    case "evt.res" | "fd.num" => Some(Int(e.ret))
    case _ => CommonField(e.common, name)
  }

  /** `(*ChmodEvent).GetField`. */
  function ChmodField(e: ChmodEvent, name: string): (v: Option<FieldValue>)
    ensures v.Some? <==> name in CHMOD_NAMES || name in COMMON_NAMES
    ensures name !in CHMOD_NAMES ==> v == CommonField(e.common, name)
    ensures name == "fd.name" || name == "evt.arg.filename" ==> v == Some(BytesText(e.filename))
    ensures name == "evt.arg.mode" ==> v.Some? && v.value.Str? && v.value.s == OctalText(e.mode)
    ensures name == "evt.arg.mode" ==> ParseUnsigned(v.value.s[1..], 8) == Some(e.mode as nat)
    ensures name == "evt.res" ==> v == Some(Int(e.ret))
  {
    match name
    case "fd.name" | "evt.arg.filename" => Some(BytesText(e.filename))
    case "evt.arg.mode" => OctalTextRoundTrip(e.mode); Some(Str(OctalText(e.mode)))
    case "evt.res" => Some(Int(e.ret))
    case _ => CommonField(e.common, name)
  }

  // ---------------------------------------------------------------------
  // The event interface

  /** The seven event types behind the `GetType` / `GetField` interface. */
  datatype Event =
    | Openat(openat: OpenatEvent)
    | Execve(execve: ExecveEvent)
    | Connect(connect: ConnectEvent)
    | Accept(accept: AcceptEvent)
    | Ptrace(ptrace: PtraceEvent)
    | Memfd(memfd: MemfdEvent)
    | Chmod(chmod: ChmodEvent)
  {
    /** The common header the fall-through lookup reads. */
    function Common(): CommonEvent
    {
      match this
      case Openat(e) => e.common
      case Execve(e) => e.common
      case Connect(e) => e.common
      case Accept(e) => e.common
      case Ptrace(e) => e.common
      case Memfd(e) => e.common
      case Chmod(e) => e.common
    }

    /** The names this type answers before falling through. */
    function OwnNames(): set<string>
    {
      match this
      case Openat(_) => OPENAT_NAMES
      case Execve(_) => EXECVE_NAMES
      case Connect(_) => CONNECT_NAMES
      case Accept(_) => ACCEPT_NAMES
      case Ptrace(_) => PTRACE_NAMES
      case Memfd(_) => MEMFD_NAMES
      case Chmod(_) => CHMOD_NAMES
    }

    /** `GetType`: a constant tag per type. */
    function GetType(): (t: string)
      ensures Openat? ==> t == "openat"
      ensures Execve? ==> t == "execve"
      ensures Connect? ==> t == "connect"
      ensures Accept? ==> t == "accept"
      ensures Ptrace? ==> t == "ptrace"
      ensures Memfd? ==> t == "memfd_create"
      ensures Chmod? ==> t == "chmod"
    {
      match this
      case Openat(_) => "openat"
      case Execve(_) => "execve"
      case Connect(_) => "connect"
      case Accept(_) => "accept"
      case Ptrace(_) => "ptrace"
      case Memfd(_) => "memfd_create"
      case Chmod(_) => "chmod"
    }

    /** `GetField`. */
    function GetField(name: string): (v: Option<FieldValue>)
      ensures v.Some? <==> name in OwnNames() || name in COMMON_NAMES
      ensures name !in OwnNames() ==> v == CommonField(Common(), name)
      ensures Openat? ==> v == OpenatField(openat, name)
      ensures Execve? ==> v == ExecveField(execve, name)
      ensures Connect? ==> v == ConnectField(connect, name)
      ensures Accept? ==> v == AcceptField(accept, name)
      ensures Ptrace? ==> v == PtraceField(ptrace, name)
      ensures Memfd? ==> v == MemfdField(memfd, name)
      ensures Chmod? ==> v == ChmodField(chmod, name)
    {
      match this
      case Openat(e) => OpenatField(e, name)
      case Execve(e) => ExecveField(e, name)
      case Connect(e) => ConnectField(e, name)
      case Accept(e) => AcceptField(e, name)
      case Ptrace(e) => PtraceField(e, name)
      case Memfd(e) => MemfdField(e, name)
      case Chmod(e) => ChmodField(e, name)
    }
  }

  /** No type claims a common name for itself, so the seven header names
      always reach `getCommonField` unchanged. */
  lemma CommonNamesNeverShadowed(e: Event, name: string)
    requires name in COMMON_NAMES
    ensures e.GetField(name) == CommonField(e.Common(), name)
    ensures e.GetField(name).Some?
  {
    assert name !in e.OwnNames();
  }

  /** Two events with the same tag are of the same type. */
  lemma GetTypeIdentifies(a: Event, b: Event)
    requires a.GetType() == b.GetType()
    ensures a.OwnNames() == b.OwnNames()
    ensures (a.Openat? <==> b.Openat?) && (a.Execve? <==> b.Execve?)
    ensures (a.Connect? <==> b.Connect?) && (a.Accept? <==> b.Accept?)
    ensures (a.Ptrace? <==> b.Ptrace?) && (a.Memfd? <==> b.Memfd?) && (a.Chmod? <==> b.Chmod?)
  {
  }

  /** Alias names answer with the same value. */
  lemma AliasesAgree(e: Event)
    ensures e.Openat? ==> e.GetField("fd.name") == e.GetField("evt.arg.filename")
    ensures e.Openat? ==> e.GetField("evt.res") == e.GetField("fd.num")
    ensures e.Execve? ==> e.GetField("proc.exepath") == e.GetField("evt.arg.filename")
    ensures e.Execve? ==> e.GetField("proc.cmdline") == e.GetField("proc.args")
    ensures e.Connect? ==> e.GetField("fd.ip") == e.GetField("fd.sip")
    ensures e.Connect? ==> e.GetField("fd.port") == e.GetField("fd.sport")
    ensures e.Accept? ==> e.GetField("fd.num") == e.GetField("evt.res")
    ensures e.Accept? ==> e.GetField("fd.ip") == e.GetField("fd.rip")
    ensures e.Accept? ==> e.GetField("fd.port") == e.GetField("fd.rport")
    ensures e.Memfd? ==> e.GetField("evt.res") == e.GetField("fd.num")
    ensures e.Chmod? ==> e.GetField("fd.name") == e.GetField("evt.arg.filename")
  {
  }

  /** For connect, unlike openat and accept, `fd.num` is the socket
      argument and `evt.res` the return value, so they differ whenever the
      two numbers do. */
  lemma ConnectFdIsNotResult(e: ConnectEvent)
    ensures Connect(e).GetField("fd.num") == Some(Int(e.fd))
    ensures Connect(e).GetField("evt.res") == Some(Int(e.ret))
    ensures e.fd != e.ret ==> Connect(e).GetField("fd.num") != Connect(e).GetField("evt.res")
  {
  }

  /** The ptrace request shows the table's name exactly for a known code,
      and otherwise the code itself (wrapped to a negative `int` from 2^63 on). */
  lemma PtraceRequestField(e: PtraceEvent)
    ensures e.request in PTRACE_REQUESTS ==> Ptrace(e).GetField("evt.arg.request") == Some(Str(PTRACE_REQUESTS[e.request]))
    ensures e.request !in PTRACE_REQUESTS ==> Ptrace(e).GetField("evt.arg.request") == Some(Int(Uint64ToInt(e.request)))
  {
  }

  /** The openat flags field is the decoded flag list, recoverable by splitting. */
  lemma OpenatFlagsField(e: OpenatEvent)
    requires |OpenFlags(e.flags)| >= 1
    ensures Openat(e).GetField("evt.arg.flags") == Some(Str(FlagsText(e.flags)))
    ensures Split(FlagsText(e.flags), ',') == DecodeOpenFlags(e.flags)
  {
    FlagsTextSplits(e.flags);
  }
}
