/** The in-kernel half of the connect tracer (try1/bpf/bpf_connect.c): the
    handler attached to the `syscalls/sys_enter_connect` tracepoint, as a
    pure function from the tracepoint context, the calling process's memory
    and the current task to the handler's return value and the record it
    hands to `bpf_perf_event_output`, if any.

    The kernel helpers are oracles: `bpf_probe_read_user` reads a partial
    map of user addresses and fails when any byte is unmapped;
    `bpf_get_current_pid_tgid` and the task name behind
    `bpf_get_current_comm` are fields of `Task`. */
module ConnectProbe {
  import opened Machine
  import opened Wrappers
  import Text

  /** `AF_INET` from the kernel headers. */
  const AF_INET: u16 := 2
  /** `AF_INET6`, the family the probe is meant to ignore. */
  const AF_INET6: u16 := 10

  /** Offsets of `sin_family` and `sin_addr.s_addr` in `struct sockaddr_in`. */
  const SIN_FAMILY_OFFSET: nat := 0
  const SIN_ADDR_OFFSET: nat := 4

  /** `sizeof(struct event)`: 4 + 16 + 4, with no padding. */
  const RECORD_SIZE: nat := 24

  /** `struct event`: a flat record, copied by value into the perf buffer. */
  datatype Record = Record(pid: u32, comm: Comm, daddr: u32)

  /** `struct connect_args`: the tracepoint context as the probe declares it. */
  datatype ConnectArgs = ConnectArgs(
    commonType: u16,
    commonFlags: byte,
    commonPreemptCount: byte,
    commonPid: int32,
    fd: int32,
    uaddr: u64,
    addrlen: int32)

  /** The calling process's address space: an address missing from the map
      is unmapped, and reading it faults. */
  type UserMemory = map<nat, byte>

  /** The current task as the kernel sees it: `bpf_get_current_pid_tgid`
      (tgid in the upper half, thread id in the lower) and the task's name. */
  datatype Task = Task(pidTgid: u64, name: seq<byte>)

  /** What one invocation of the handler does: its return value, and the
      record passed to the single `bpf_perf_event_output` call, if made. */
  datatype ProbeResult = ProbeResult(ret: int, emitted: Option<Record>)

  /** `bpf_probe_read_user(dst, n, addr)`: all `n` bytes, or a fault. */
  function ReadUser(mem: UserMemory, addr: nat, n: nat): (r: Option<seq<byte>>)
    ensures r.Some? <==> forall a :: addr <= a < addr + n ==> a in mem
    ensures r.Some? ==> |r.value| == n
    ensures r.Some? ==> forall i :: 0 <= i < n ==> addr + i in mem && r.value[i] == mem[addr + i]
    decreases n
  {
    if n == 0 then Some([])
    else if addr !in mem then None
    else
      match ReadUser(mem, addr + 1, n - 1)
      case None => None
      case Some(rest) => Some([mem[addr]] + rest)
  }

  /** How many bytes of the task name `bpf_get_current_comm` copies: the
      name up to its first NUL, cut to 15 so that a terminator fits. */
  function CommLength(name: seq<byte>): (k: nat)
    ensures k <= 15 && k <= |name|
    ensures 0 !in name[..k]
    ensures k < 15 && k < |name| ==> name[k] == 0
  {
    var n := Text.IndexOf(name, 0);
    var len := if n == -1 then |name| else n;
    assert name[..len][..(if len < 15 then len else 15)] == name[..(if len < 15 then len else 15)];
    if len < 15 then len else 15
  }

  /** `bpf_get_current_comm(&event.comm, 16)` by its documented contract:
      the task name, truncated to 15 bytes, always NUL-terminated and
      NUL-padded to the full buffer. */
  function CurrentComm(name: seq<byte>): (c: Comm)
    ensures c[..CommLength(name)] == name[..CommLength(name)]
    ensures forall i :: CommLength(name) <= i < 16 ==> c[i] == 0
  {
    var k := CommLength(name);
    seq(16, i requires 0 <= i < 16 => if i < k then name[i] else 0)
  }

  /** The handler `tracepoint__syscalls__sys_enter_connect`. */
  function Probe(ctx: ConnectArgs, mem: UserMemory, task: Task): (r: ProbeResult)
    // every path returns 0, so the traced syscall is never affected
    ensures r.ret == 0
    // a record is emitted exactly when the two family bytes are readable and spell AF_INET
    ensures r.emitted.Some? <==>
              && ctx.uaddr in mem && ctx.uaddr + 1 in mem
              && mem[ctx.uaddr] as int + 0x100 * mem[ctx.uaddr + 1] as int == AF_INET
    // the pid is the thread-group id: the upper half of pid_tgid
    ensures r.emitted.Some? ==>
              r.emitted.value.pid * 0x1_0000_0000 <= task.pidTgid < (r.emitted.value.pid + 1) * 0x1_0000_0000
    ensures r.emitted.Some? ==> r.emitted.value.comm == CurrentComm(task.name)
    // a readable destination is copied verbatim; an unreadable one leaves the zero of `event = {}`
    ensures r.emitted.Some? && ReadUser(mem, ctx.uaddr + SIN_ADDR_OFFSET, 4).Some? ==>
              PutLE32(r.emitted.value.daddr) == ReadUser(mem, ctx.uaddr + SIN_ADDR_OFFSET, 4).value
    ensures r.emitted.Some? && ReadUser(mem, ctx.uaddr + SIN_ADDR_OFFSET, 4).None? ==>
              r.emitted.value.daddr == 0
  {
    match ReadUser(mem, ctx.uaddr + SIN_FAMILY_OFFSET, 2)
    case None => ProbeResult(0, None)
    case Some(family) =>
      if LE16(family) != AF_INET then ProbeResult(0, None)
      else
        var daddr := match ReadUser(mem, ctx.uaddr + SIN_ADDR_OFFSET, 4)
                     case Some(b) => (PutLE32OfLE32(b); LE32(b))
                     case None => 0;
        ProbeResult(0, Some(Record(Hi32(task.pidTgid), CurrentComm(task.name), daddr)))
  }

  /** The record's bytes as `bpf_perf_event_output` copies them: pid in
      host order at 0, comm at 4, daddr at 20. */
  function Serialize(rec: Record): (b: seq<byte>)
    ensures |b| == RECORD_SIZE
    ensures b[4..20] == rec.comm
  {
    PutLE32(rec.pid) + rec.comm + PutLE32(rec.daddr)
  }

  /** Reading a record back from its 24 bytes. */
  function Deserialize(b: seq<byte>): Record
    requires |b| == RECORD_SIZE
  {
    Record(LE32(b[0..4]), b[4..20], LE32(b[20..24]))
  }

  /** The layout loses nothing: a record survives the trip through its bytes. */
  lemma DeserializeSerialize(rec: Record)
    ensures Deserialize(Serialize(rec)) == rec
  {
    var b := Serialize(rec);
    assert b[0..4] == PutLE32(rec.pid);
    assert b[20..24] == PutLE32(rec.daddr);
    LE32OfPutLE32(rec.pid);
    LE32OfPutLE32(rec.daddr);
  }

  /** ...and every 24-byte string is the image of exactly one record. */
  lemma SerializeDeserialize(b: seq<byte>)
    requires |b| == RECORD_SIZE
    ensures Serialize(Deserialize(b)) == b
  {
    PutLE32OfLE32(b[0..4]);
    PutLE32OfLE32(b[20..24]);
    assert b == b[0..4] + b[4..20] + b[20..24];
  }

  /** In the emitted bytes, the destination occupies offsets 20..23 exactly
      as the four network-order octets sat in the caller's `sin_addr`. */
  lemma EmittedAddressIsWireOctets(ctx: ConnectArgs, mem: UserMemory, task: Task)
    requires Probe(ctx, mem, task).emitted.Some?
    requires ReadUser(mem, ctx.uaddr + SIN_ADDR_OFFSET, 4).Some?
    ensures Serialize(Probe(ctx, mem, task).emitted.value)[20..24] ==
            ReadUser(mem, ctx.uaddr + SIN_ADDR_OFFSET, 4).value
  {
    var rec := Probe(ctx, mem, task).emitted.value;
    assert Serialize(rec)[20..24] == PutLE32(rec.daddr);
  }

  /** Truncation law: the name the buffer spells is the task name up to its
      first NUL, cut to at most 15 bytes; shorter names come back whole. */
  lemma CommTruncation(name: seq<byte>)
    ensures Text.CleanString(CurrentComm(name)) == Text.FromBytes(name[..CommLength(name)])
    ensures 0 !in name && |name| <= 15 ==> Text.CleanString(CurrentComm(name)) == Text.FromBytes(name)
    ensures 0 !in name && |name| > 15 ==> Text.CleanString(CurrentComm(name)) == Text.FromBytes(name[..15])
  {
    var c := CurrentComm(name);
    var k := CommLength(name);
    assert c[..k] == name[..k];
    assert c[k] == 0;
    Text.CleanStringUnique(c, k);
    if 0 !in name && |name| <= 15 {
      assert name[..k] == name;
    }
  }

  /** A probe-built comm buffer always holds a NUL: the last byte is never copied over. */
  lemma CurrentCommTerminated(name: seq<byte>)
    ensures CurrentComm(name)[15] == 0
    ensures 0 in CurrentComm(name)
  {
    assert CurrentComm(name)[15] == 0;
  }

  /** The wire bytes of the curl scenario: AF_INET, port 80, 93.184.216.34. */
  predicate CurlMemory(ctx: ConnectArgs, mem: UserMemory)
  {
    && ctx.uaddr == 0x7ffd_0000
    && mem == map[0x7ffd_0000 := 2, 0x7ffd_0001 := 0, 0x7ffd_0002 := 0, 0x7ffd_0003 := 80,
                  0x7ffd_0004 := 93, 0x7ffd_0005 := 184, 0x7ffd_0006 := 216, 0x7ffd_0007 := 34]
  }

  lemma CurlPid(pidTgid: u64)
    requires pidTgid == 4242 * 0x1_0000_0000 + 4250
    ensures Hi32(pidTgid) == 4242
  {
  }

  lemma CurlWire(ctx: ConnectArgs, mem: UserMemory)
    requires CurlMemory(ctx, mem)
    ensures ctx.uaddr in mem && ctx.uaddr + 1 in mem
    ensures mem[ctx.uaddr] as int + 0x100 * mem[ctx.uaddr + 1] as int == AF_INET
    ensures ReadUser(mem, ctx.uaddr + SIN_ADDR_OFFSET, 4) == Some([93, 184, 216, 34])
  {
    var wire := ReadUser(mem, ctx.uaddr + SIN_ADDR_OFFSET, 4);
    assert wire.Some?;
    assert wire.value == [93, 184, 216, 34];
  }

  lemma CurlComm(name: seq<byte>)
    requires name == [99, 117, 114, 108]
    ensures Text.CleanString(CurrentComm(name)) == "curl"
  {
    CommTruncation(name);
    assert Text.FromBytes(name) == "curl";
  }

  /** A curl process (pid 4242) connecting to 93.184.216.34:80 yields
      exactly one record with that pid, that name and those octets. */
  lemma ScenarioCurl(ctx: ConnectArgs, mem: UserMemory, task: Task)
    requires CurlMemory(ctx, mem)
    requires task == Task(4242 * 0x1_0000_0000 + 4250, [99, 117, 114, 108])
    ensures Probe(ctx, mem, task).emitted.Some?
    ensures Probe(ctx, mem, task).emitted.value.pid == 4242
    ensures Text.CleanString(Probe(ctx, mem, task).emitted.value.comm) == "curl"
    ensures Serialize(Probe(ctx, mem, task).emitted.value)[20..24] == [93, 184, 216, 34]
  {
    CurlWire(ctx, mem);
    CurlPid(task.pidTgid);
    CurlComm(task.name);
    EmittedAddressIsWireOctets(ctx, mem, task);
  }

  /** An AF_INET6 socket address yields no record. */
  lemma ScenarioIpv6(ctx: ConnectArgs, mem: UserMemory, task: Task)
    requires ctx.uaddr in mem && ctx.uaddr + 1 in mem
    requires mem[ctx.uaddr] == AF_INET6 && mem[ctx.uaddr + 1] == 0
    ensures Probe(ctx, mem, task) == ProbeResult(0, None)
  {
  }

  /** A pointer into unmapped memory yields no record. */
  lemma ScenarioUnmapped(ctx: ConnectArgs, task: Task)
    ensures Probe(ctx, map[], task) == ProbeResult(0, None)
  {
  }
}
