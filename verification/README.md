# Connect tracer and event decoding, in Dafny

This project models the core of a small eBPF security monitor.

- A kernel probe on `sys_enter_connect` emits a flat 24-byte record for every IPv4 connect.
- A Go reader decodes those records and prints them.
- Richer event records (openat, execve, connect, and others) carry a common header. They have one-line descriptions and a field-lookup interface used by rules.
- An openat analyzer normalises names, formats the result status and resolves the opened path through `/proc`.

Everything is pure functions over immutable datatypes:

- The kernel helpers `bpf_get_current_pid_tgid` and `bpf_get_current_comm` become a `Task` input.
- `bpf_get_current_comm` is modelled by its documented contract: it copies the task name up to its first NUL, at most 15 bytes, and zero-pads to 16.
- `bpf_probe_read_user` is an all-or-nothing read over a partial map from address to byte.
- `os.Readlink` is an oracle `string -> Option<string>`.
- `filepath.Join` is an uninterpreted function parameter.
- Go `int(...)` conversions are written out. That includes the wrap of a `uint64` above 2^63 to a negative `int`.
- The host is little-endian (x86-64).

Modules, one per file:

| module | file | models |
|---|---|---|
| `Wrappers` | wrappers.dfy | `Option` |
| `Machine` | machine.dfy | fixed-width integers, 16-byte name buffers, little- and big-endian 32-bit packing |
| `Text` | text.dfy | `string(b)`, `bytes.IndexByte`, `cleanString`, `bytes.TrimRight(b, "\x00")`, `strings.Join`/`Split`, `%d`/`%x`/`%o` |
| `ConnectProbe` | probe.dfy | try1/bpf/bpf_connect.c |
| `Consumer` | consumer.dfy | the decode-and-print path of try1/main.go |
| `Events` | events.dfy | internal/events/events.go |
| `Getters` | getters.dfy | internal/events/getters.go |
| `Analyzer` | analyzer.dfy | internal/analyzer/analyzer.go |

Where the code and its comments disagree, the model follows the code:

- try1/main.go reads the record little-endian and repacks it big-endian. The printed octets are therefore the wire octets reversed, although the comment on `intToIP` says the conversion restores network order. `Consumer.DisplayedAddressReversed` makes this concrete.
- The `O_SYNC` test in `decodeOpenFlags` fires on any bit of `O_SYNC`'s mask. That mask includes the `O_DSYNC` bit, so an `O_DSYNC` open is also listed as `O_SYNC` (`Getters.DsyncIsAlsoReportedAsSync`).
- internal/analyzer/analyzer.go reads `event.Pid` and `event.Comm`. `OpenatEvent` holds these only under `Common`, so the model uses `Common.Pid` and `Common.Comm`, as intended.

## Model

| member | source | states |
|---|---|---|
| ConnectProbe.ReadUser | try1/bpf/bpf_connect.c:45-46 | the read succeeds exactly when every byte of the range is mapped, and then returns those bytes in order |
| ConnectProbe.CommLength | try1/bpf/bpf_connect.c:59 | the copied name length is at most 15 and at most the name, holds no NUL, and stops at a NUL when it stops early |
| ConnectProbe.CurrentComm | try1/bpf/bpf_connect.c:59 | the comm buffer starts with the copied name bytes and is zero after them |
| ConnectProbe.Probe | try1/bpf/bpf_connect.c:37-71 | the handler returns 0 on every path. A record is emitted exactly when both family bytes are readable and spell AF_INET. Its pid is the upper 32 bits of pid_tgid and its comm is the task name as the kernel copies it. Its daddr is the bytes read when the address read succeeds, and 0 when it fails |
| ConnectProbe.Serialize | try1/bpf/bpf_connect.c:9-13 | the record image is 24 bytes with comm at offsets 4..19 |
| ConnectProbe.DeserializeSerialize | try1/bpf/bpf_connect.c:9-13 | a record read back from its own image is the same record |
| ConnectProbe.SerializeDeserialize | try1/bpf/bpf_connect.c:9-13 | every 24-byte string is the image of the record read from it, so the layout is a bijection |
| ConnectProbe.EmittedAddressIsWireOctets | try1/bpf/bpf_connect.c:64-68 | when the address read succeeds, the emitted bytes 20..23 are the four sin_addr bytes in wire order |
| ConnectProbe.CommTruncation | try1/bpf/bpf_connect.c:59 | the name cut at its first NUL is the task name truncated to 15 bytes |
| ConnectProbe.CurrentCommTerminated | try1/bpf/bpf_connect.c:59 | byte 15 of the comm is always NUL |
| ConnectProbe.ScenarioCurl | try1/bpf/bpf_connect.c:50-68 | curl (pid 4242) connecting to 93.184.216.34 emits pid 4242, name "curl" and wire octets 93,184,216,34 |
| ConnectProbe.ScenarioIpv6 | try1/bpf/bpf_connect.c:50-52 | an AF_INET6 address returns 0 and emits nothing |
| ConnectProbe.ScenarioUnmapped | try1/bpf/bpf_connect.c:45-48 | an unreadable address returns 0 and emits nothing |
| Machine.Hi32 | try1/bpf/bpf_connect.c:58 | the result is the quotient of the 64-bit id by 2^32: the thread-id half is dropped |
| Machine.LE16 | try1/bpf/bpf_connect.c:45-50 | the 16-bit family value read in host order has byte 0 as its low byte and byte 1 as its high byte |
| Machine.PutLE32 | internal/events/events.go:60-63 | byte i of `binary.LittleEndian.PutUint32` is `(n >> 8i) & 0xff`; LE32OfPutLE32 is its inverse |
| Machine.PutBE32 | try1/main.go:97-101 | byte i of `binary.BigEndian.PutUint32` is `(n >> 8(3-i)) & 0xff`; BE32OfPutBE32 is its inverse |
| Machine.LE32OfPutLE32 | internal/events/events.go:60-63 | reading int2ip's four bytes little-endian (Machine.LE32, `binary.LittleEndian.Uint32`) gives the number back |
| Machine.PutLE32OfLE32 | try1/main.go:82 | four bytes read little-endian by Machine.LE32 (`binary.LittleEndian.Uint32`) and written back are the same bytes, so the read is a bijection |
| Machine.BE32OfPutBE32 | try1/main.go:97-101 | reading intToIP's bytes big-endian gives the number back |
| Machine.PutBE32IsReversedLE | try1/main.go:97-101 | the big-endian packing of n is its little-endian packing reversed |
| Machine.Uint64ToInt | internal/events/getters.go:93 | `int(uint64)` keeps values below 2^63 and makes larger ones negative by subtracting 2^64 |
| Consumer.DecodeEvent | try1/main.go:82-85 | decoding succeeds exactly on samples of at least 24 bytes |
| Consumer.DecodeSerialized | try1/main.go:17-24 | a serialized record, with any trailing bytes, decodes to its field-for-field mirror |
| Consumer.DecodeIsPrefixBijection | try1/main.go:82 | decoding reads exactly the first 24 bytes and loses none of them |
| Consumer.ProcessName | try1/main.go:89 | the slice panics exactly when Comm holds no NUL, and otherwise yields cleanString of Comm |
| Consumer.IntToIP | try1/main.go:97-101 | byte i is `(n >> 8(3-i)) & 0xff`, and reading big-endian gives n |
| Consumer.HandleSample | try1/main.go:82-92 | a sample is skipped exactly when it is too short to decode |
| Consumer.Consume | try1/main.go:68-93 | the loop prints at most one line per sample; what it prints and when it dies are stated by ConsumePanicsIff, ConsumeAppend, PanicStops and ConsumeRecords |
| Consumer.ConsumePanicsIff | try1/main.go:68-93 | the loop dies exactly when some decodable sample has a Comm without NUL |
| Consumer.ConsumeSkipsShort | try1/main.go:82-85 | a short sample is skipped and the loop goes on with the rest |
| Consumer.CombineAppend | try1/main.go:82-92 | a pass that does not panic puts its line, if any, in front of the lines of the later passes and keeps their panic flag |
| Consumer.ConsumeAppend | try1/main.go:68-93 | without a panic, consuming two streams in turn prints the concatenation of their lines |
| Consumer.PanicStops | try1/main.go:68-93 | a sample that decodes to a name without a NUL ends the stream: the lines printed before it stay, and no later sample is printed |
| Consumer.ConsumeRecords | try1/main.go:68-93 | a stream of serialized records, each with a NUL in Comm, prints one line per record, in order, without panicking |
| Consumer.EmittedCallIsPrinted | try1/main.go:82-92 | every record the probe emits is printed with the caller's tgid and the truncated task name. The octets printed are the wire octets reversed |
| Consumer.DisplayedAddressReversed | try1/main.go:98-100 | a connect to 93.184.216.34 is printed as 34.216.184.93 |
| Text.FromBytes | internal/events/events.go:55 | `string(b)` keeps the length and each byte's value |
| Text.FromBytesInjective | internal/events/events.go:55 | distinct buffers give distinct strings |
| Text.IndexOf | internal/events/events.go:53 | the result is -1 exactly when the byte is absent, and otherwise indexes its first occurrence |
| Text.CleanString | internal/events/events.go:51-58 | the result is the buffer's prefix before its first NUL (the whole buffer when there is none), holds no NUL and is no longer than the input |
| Text.CleanStringOfPadded | internal/events/events.go:51-58 | a NUL-free name followed by NUL padding comes back exactly |
| Text.TrimRightNul | internal/analyzer/analyzer.go:24-25 | the result is a prefix of the input, only NULs were removed, and it does not end in a NUL |
| Text.TrimRightNulUnique | internal/analyzer/analyzer.go:24-25 | a cut that ends in a non-NUL byte and has only NULs after it is the trim |
| Text.TrimRightKeepsInteriorNul | internal/analyzer/analyzer.go:24-25 | a NUL followed later by a non-NUL byte survives trimming |
| Text.Join | internal/events/events.go:98 | no items join to the empty text; otherwise the text opens with the first item, followed by the separator when there is a second; SplitJoin is its inverse |
| Text.JoinOpens | internal/events/events.go:82-83 | the text of three or more items joined by one character opens with the first item, the character, the second item and the character again |
| Text.JoinCloses | internal/events/events.go:82-83 | the text of two or more items joined by one character ends with the character followed by the last item |
| Text.SplitJoin | internal/events/events.go:98 | joining items that do not contain the separator is undone by splitting |
| Text.SplitJoinLast | internal/events/events.go:82-83 | when only the last item may contain the separator, splitting the joined text gives the other items followed by the last item split |
| Text.JoinAvoids | internal/events/events.go:60-63 | a character absent from every item and from the separator is absent from the joined text |
| Text.Decimal | internal/events/events.go:77 | `%d` is never empty and holds none of the characters the lines and paths split at (space, `)`, `:`, `/`, `.`, `,`); ParseDecimalOfDecimal is its inverse |
| Text.ParseDecimalOfDecimal | internal/events/events.go:77 | `%d` of any integer reads back as that integer |
| Text.DecimalInjective | internal/events/events.go:77 | distinct integers render to distinct text |
| Text.ValueOfDigits | internal/events/getters.go:199 | the digits of n in base 8, 10 or 16 denote n |
| Events.Int2IP | internal/events/events.go:60-63 | byte i is `(nn >> 8i) & 0xff`, and reading little-endian gives nn |
| Events.DottedQuad | internal/events/events.go:60-63 | the address text holds no space and splits at `.` into exactly the four octets in decimal, in order |
| Events.DottedQuadInjective | internal/events/events.go:60-63 | distinct four-byte addresses are shown as distinct text |
| Events.Ntohs | internal/events/events.go:67-69 | the low byte of the result is the input's high byte and vice versa |
| Events.NtohsInvolution | internal/events/events.go:67-69 | swapping twice gives the port back |
| Events.OpenatStatus | internal/events/events.go:75-80 | the status is `ERR:` exactly when ret < 0 and `FD:` exactly when ret >= 0. The initial `SUCCESS` never survives |
| Events.OpenatStatusRoundTrip | internal/events/events.go:75-80 | the status text reads back as ret |
| Events.OpenatRetField | internal/events/events.go:75-83 | the `RET:` field holds no space, shows the openat status after its tag, and reads back as ret |
| Events.ConnectStatus | internal/events/events.go:109-112 | the status is `SUCCESS` exactly when ret >= 0, and otherwise `ERR:` followed by text that reads back as ret |
| Events.PidField | internal/events/events.go:82-83 | the `PID:` field's digits read back as the pid |
| Events.SplitLine | internal/events/events.go:82-115 | a five-field line whose first four fields hold no space splits back into those four fields followed by the last field split; with no space at all it splits back into its five fields |
| Events.OpenatFieldsAreWords | internal/events/events.go:82-83 | when the cleaned name and filename hold no space, no openat field holds a space |
| Events.ExecveFieldsAreWords | internal/events/events.go:100-101 | when the cleaned name and filename hold no space, none of the first four execve fields holds a space |
| Events.ConnectFieldsAreWords | internal/events/events.go:114-115 | when the cleaned name holds no space, no connect field holds a space |
| Events.OpenatFields | internal/events/events.go:71-84 | five fields: the `[OPENAT]` tag, a pid that reads back, the cleaned comm and filename after their tags, and a RET field that reads back as ret and holds no space |
| Events.OpenatLine | internal/events/events.go:82-83 | the line opens with `[OPENAT] ` and the PID field and ends with ` RET:` and the status; when the cleaned name and filename hold no space, splitting the line at spaces gives back exactly its five fields; OpenatLineIdentifies recovers pid and ret |
| Events.ExecveArgs | internal/events/events.go:91-98 | the ARGS text is empty exactly when no slot holds a non-empty argument; ExecveArgsSplit is its inverse |
| Events.ExecveFields | internal/events/events.go:86-102 | five fields: the `[EXECVE]` tag, a pid that reads back, the cleaned comm and filename after their tags, and the joined arguments after `ARGS:` |
| Events.ExecveLine | internal/events/events.go:100-101 | the line opens with `[EXECVE] ` and the PID field and ends with ` ARGS:` and the joined arguments; when the cleaned name and filename hold no space, splitting the line at spaces gives back its first four fields followed by the ARGS field split at spaces |
| Events.AddrField | internal/events/events.go:106-107 | after `ADDR:`, the dotted address and a colon, the digits read back as the port in host order |
| Events.ConnectRetField | internal/events/events.go:109-112 | the RET field is `RET:SUCCESS` exactly when ret >= 0, and otherwise `RET:ERR:` followed by text that reads back as ret |
| Events.ConnectFields | internal/events/events.go:104-116 | five fields: the `[CONNECT]` tag, a pid that reads back, the cleaned comm, the address with a port that reads back in host order, and the RET field as above |
| Events.ConnectLine | internal/events/events.go:114-115 | the line opens with `[CONNECT] ` and the PID field and ends with ` RET:` and the status; when the cleaned name holds no space, splitting the line at spaces gives back exactly its five fields |
| Events.NonEmptyArgs | internal/events/events.go:91-97 | at most one argument per slot, none of them empty |
| Events.NonEmptyArgsAppend | internal/events/events.go:91-97 | the filter treats each slot alone and keeps table order |
| Events.CollectArgs | internal/events/events.go:91-97 | the loop collects exactly the non-empty cleaned slots, in order |
| Events.ExecveArgsSplit | internal/events/events.go:98 | when no argument holds a space, the ARGS text splits back into exactly the non-empty arguments |
| Events.OpenatLineIdentifies | internal/events/events.go:82-83 | equal openat lines have equal pid and equal ret |
| Events.ConnectLineIdentifies | internal/events/events.go:114-115 | equal connect lines have equal pid and the same success, and the same ret when it failed |
| Events.ExecveLineIdentifiesPid | internal/events/events.go:100-101 | equal execve lines have equal pid |
| Getters.AccessMode | internal/events/getters.go:15-22 | mode 0 gives O_RDONLY, mode 1 O_WRONLY, mode 2 O_RDWR, and mode 3 nothing |
| Getters.Test | internal/events/getters.go:25-27 | a flag is listed exactly when some bit of its mask is set |
| Getters.FlagTest | internal/events/getters.go:25-51 | the k-th test after the access mode is for a non-access flag whose rank is k + 1, so the tests follow the source order |
| Getters.FlagTestOfRank | internal/events/getters.go:25-51 | each of the nine non-access flags has its own test, placed by its rank in the source order |
| Getters.ListedFlagFires | internal/events/getters.go:25-51 | a flag listed by the tests from the k-th on is a non-access flag tested at or after the k-th, and some bit of its mask is set |
| Getters.FiringFlagListed | internal/events/getters.go:25-51 | a non-access flag tested at or after the k-th with a mask bit set is listed by the tests from the k-th on |
| Getters.TestsMembership | internal/events/getters.go:25-51 | the tests from the k-th on (Getters.Tests) list a flag exactly when it is tested at or after the k-th and some bit of its mask is set |
| Getters.TestsOrdered | internal/events/getters.go:25-51 | the tests from the k-th on list flags in strictly increasing test order, all of them tested after the k-th |
| Getters.OpenFlags | internal/events/getters.go:10-53 | at most ten flags |
| Getters.DecodeOpenFlags | internal/events/getters.go:10-53 | one name per decoded flag, in the same order |
| Getters.OpenFlagsOrdered | internal/events/getters.go:10-53 | the names come in the fixed source order, so there are no duplicates |
| Getters.OpenFlagsAccessModeLeads | internal/events/getters.go:15-22 | an access-mode name can only come first |
| Getters.OpenFlagsAccessMode | internal/events/getters.go:15-22 | an access-mode name leads exactly when the access mode is 0, 1 or 2 |
| Getters.OpenFlagsMembership | internal/events/getters.go:25-51 | each of the nine other names appears exactly when flags & mask != 0 |
| Getters.ListedWithWiderMask | internal/events/getters.go:25-51 | a flag whose mask lies inside another flag's mask is never listed without that other flag |
| Getters.DsyncIsAlsoReportedAsSync | internal/events/getters.go:43-48 | every flag word that lists O_DSYNC also lists O_SYNC |
| Getters.DsyncAloneDecodes | internal/events/getters.go:43-48 | O_DSYNC alone decodes to O_RDONLY, O_DSYNC, O_SYNC |
| Getters.WriteAfreshDecodes | internal/events/getters.go:10-53 | O_WRONLY, O_CREAT and O_TRUNC together decode to those three names in that order |
| Getters.ModeThreeDecodesEmpty | internal/events/getters.go:15-22 | access mode 3 with no other flag decodes to no names |
| Getters.FlagsText | internal/events/getters.go:112-114 | the flags text is empty exactly when no flag is decoded |
| Getters.FlagsTextSplits | internal/events/getters.go:112-114 | the flags text splits at `,` back into the decoded names, and is empty when there are none |
| Getters.CommonField | internal/events/getters.go:82-99 | a value is returned exactly for the seven common names: proc.pid, proc.ppid, proc.uid and proc.gid are the header integers, proc.cgroup is the wrapped `int` of the cgroup id, and proc.name and proc.pname are `BytesToString` of the raw name buffers |
| Getters.RequestValue | internal/events/getters.go:190-195 | the value is a string exactly when the request is a table key, and otherwise it is the request as `int` |
| Getters.HexText | internal/events/getters.go:199 | the address text starts with `0x` |
| Getters.HexTextRoundTrip | internal/events/getters.go:199 | the hex digits read back as the address |
| Getters.OctalText | internal/events/getters.go:233 | the mode text starts with `0` |
| Getters.OctalTextRoundTrip | internal/events/getters.go:233 | the octal digits read back as the mode |
| Getters.OpenatField | internal/events/getters.go:108-120 | fd.name and evt.arg.filename give `BytesToString` of the raw filename buffer, evt.arg.flags the flags text, evt.res and fd.num the return value; exactly these five names plus the common ones answer, and every other name goes unchanged to getCommonField |
| Getters.ExecveField | internal/events/getters.go:128-142 | proc.exepath and evt.arg.filename give `BytesToString` of the raw filename buffer, proc.cmdline and proc.args the argument text, proc.env the environment text, evt.res the return value; exactly these six names plus the common ones answer, and every other name goes unchanged to getCommonField |
| Getters.ConnectField | internal/events/getters.go:150-162 | fd.num gives the socket argument and evt.res the return value, fd.ip and fd.sip the address, fd.port and fd.sport the port; exactly these six names plus the common ones answer, and every other name goes unchanged to getCommonField |
| Getters.AcceptField | internal/events/getters.go:170-180 | fd.num and evt.res give the return value, fd.ip and fd.rip the address, fd.port and fd.rport the port; exactly these six names plus the common ones answer, and every other name goes unchanged to getCommonField |
| Getters.PtraceField | internal/events/getters.go:188-204 | evt.arg.request gives the request name or number, proc.target_pid the target pid, evt.arg.addr `0x` and hex digits that read back as the address, evt.res the return value; exactly these four names plus the common ones answer, and every other name goes unchanged to getCommonField |
| Getters.MemfdField | internal/events/getters.go:210-220 | evt.arg.name gives `BytesToString` of the raw name buffer, evt.arg.flags the flags as `int`, evt.res and fd.num the return value; exactly these four names plus the common ones answer, and every other name goes unchanged to getCommonField |
| Getters.ChmodField | internal/events/getters.go:224-238 | fd.name and evt.arg.filename give `BytesToString` of the raw filename buffer, evt.arg.mode `0` and octal digits that read back as the mode, evt.res the return value; exactly these four names plus the common ones answer, and every other name goes unchanged to getCommonField |
| Getters.Event.GetType | internal/events/getters.go:104-226 | each type has its own constant tag: openat, execve, connect, accept, ptrace, memfd_create, chmod |
| Getters.Event.GetField | internal/events/getters.go:104-238 | each event type answers through its own getter, so every type answers its own names and the common ones and delegates every other name to getCommonField |
| Getters.CommonNamesNeverShadowed | internal/events/getters.go:82-99 | no type claims a common name, so the seven header names always reach getCommonField and always answer |
| Getters.GetTypeIdentifies | internal/events/getters.go:104-226 | events with equal tags are of the same type |
| Getters.AliasesAgree | internal/events/getters.go:110-238 | alias names (fd.name/evt.arg.filename, evt.res/fd.num, fd.ip/fd.sip, and so on) give identical values |
| Getters.ConnectFdIsNotResult | internal/events/getters.go:152-159 | for connect, fd.num is the socket argument and evt.res is the return value, so the two differ whenever the argument and the result differ |
| Getters.PtraceRequestField | internal/events/getters.go:190-195 | evt.arg.request is the table name for a known request, and otherwise the request as `int` |
| Getters.OpenatFlagsField | internal/events/getters.go:112-114 | evt.arg.flags is the comma-joined decoded names, recoverable by splitting |
| Analyzer.Normalize | internal/analyzer/analyzer.go:24-25 | the result is a prefix of the buffer, only NULs are dropped after it, and it does not end in a NUL |
| Analyzer.NormalizeKeepsInteriorNul | internal/analyzer/analyzer.go:24-25 | an interior NUL and every byte after it up to the last non-NUL are kept |
| Analyzer.NormalizeAgreesWithCleanString | internal/analyzer/analyzer.go:24-25 | on text followed only by NUL padding, trimming and cleanString agree |
| Analyzer.NormalizeDiffersFromCleanString | internal/analyzer/analyzer.go:24-25 | on "a\0b" trimming keeps all three bytes while cleanString keeps "a" |
| Analyzer.FormatStatus | internal/analyzer/analyzer.go:65-70 | the text starts `BLOCKED (Err: ` exactly when ret < 0, starts `SUCCESS (FD: ` exactly when ret >= 0, and ends in `)` |
| Analyzer.FormatStatusRoundTrip | internal/analyzer/analyzer.go:65-70 | the status text reads back as ret |
| Analyzer.FormatStatusAgreesWithEvents | internal/analyzer/analyzer.go:65-70 | BLOCKED exactly when the event description says ERR |
| Analyzer.ProcPartsOf | internal/analyzer/analyzer.go:41 | a `/proc/<pid>/<rest>` path splits back into the pid field and the rest when the pid field has no `/` |
| Analyzer.FdLink | internal/analyzer/analyzer.go:41 | the fd link is a `/proc` path whose pid field is the pid in decimal and whose rest is `fd/` and the descriptor in decimal |
| Analyzer.CwdLink | internal/analyzer/analyzer.go:54 | the cwd link is a `/proc` path whose pid field is the pid in decimal and whose rest is `cwd` |
| Analyzer.FdLinkIdentifies | internal/analyzer/analyzer.go:41 | the fd link path determines the pid and the descriptor |
| Analyzer.FdLinkIsNotCwdLink | internal/analyzer/analyzer.go:54 | the cwd link is never the fd link |
| Analyzer.ResolvePath | internal/analyzer/analyzer.go:37-62 | the priority chain: the fd link target when ret >= 0 and it resolves, then an absolute filename unchanged, then the cwd joined with the filename, then `UNKNOWN/` + filename |
| Analyzer.ResolvePathReadsTwoLinks | internal/analyzer/analyzer.go:37-62 | the result depends on the filesystem only through the fd link and the cwd link |
| Analyzer.FailedOpenIgnoresFdLink | internal/analyzer/analyzer.go:40-45 | when ret < 0 the fd link is never consulted |
| Analyzer.ResolvePathWithoutProc | internal/analyzer/analyzer.go:49-61 | with no link readable, the filename is a suffix of the result |
| Analyzer.HandleOpenat | internal/analyzer/analyzer.go:22-34 | the report carries the header pid, the trimmed name and path, the path resolved from the trimmed name by the priority chain, and the status formatStatus gives for ret, which is BLOCKED exactly when ret < 0 and reads back as ret |
| Analyzer.SuccessfulOpenReportsLinkTarget | internal/analyzer/analyzer.go:40-45 | a successful open whose fd link resolves is reported at the link target with a SUCCESS status |

## Left out

- The perf buffer and ring buffer transport: capacity, drops, per-CPU ordering, and the goroutine that drains it (internal/poller/poller.go). The emit is a single output value and the reader takes a finite sequence of samples.
- Loading, attaching and shutdown: internal/loader/loader.go, cmd/monitor/main.go, internal/bpf/gen.go, the signal handling and the `rd.Read` error branch of try1/main.go. This is kernel and library plumbing.
- Rules and configuration (internal/analyzer/rules.go, internal/config/config.go). These are data declarations and YAML reading, with no decision logic.
- The kernel side of the helpers:
  - `bpf_get_current_pid_tgid` is an input.
  - `bpf_get_current_comm` follows its documented contract.
  - `bpf_probe_read_user` faults exactly on unmapped bytes.
- The real behaviour of `os.Readlink`, `/proc` and `filepath.Join`. They are oracles and an uninterpreted function.
- Layout details:
  - The tracepoint context is a record of its declared fields, not a byte layout. The model keeps the `struct connect_args` that try1/bpf/bpf_connect.c:25-33 declares: it has no `__syscall_nr` field and declares `fd` as `int`. That layout may not match the offsets the kernel documents for this tracepoint, so which bytes the probe really reads as `uaddr` is not modelled.
  - `connect_args.uaddr` is an unsigned 64-bit address.
- `BytesToString`, `ExtractArgs`, `IntToIP` and the exported `Ntohs` are not part of this model. Their results in `Getters.FieldValue` are kept as the raw input they are applied to.
- `AcceptEvent`, `PtraceEvent`, `MemfdEvent` and `ChmodEvent` are not part of this model either. Their field widths are inferred from the getters' conversions; for example, the ptrace result is taken to be a 64-bit signed value.
- Logging:
  - The `log.Printf` call in the ptrace getter, which has no effect on the result, is left out.
  - The log lines of try1/main.go and the analyzer are modelled as the values they print (`Consumer.Line`, `Analyzer.Report`). The analyzer's `log.Printf` text itself is not rendered.
  - The `%-16s` padding is left out.
- Formatting:
  - `fmt`'s `%d`, `%x` and `%o` are modelled as plain digit strings with a minus sign.
  - `net.IP.String` of a four-byte address is modelled as dotted decimal.
  - Other verbs and flags are not modelled.
- Getters.OpenFlags: the Go code widens the `int32` to `int` before masking. All masks are non-negative 32-bit values, so the model tests the 32-bit pattern directly.
- Consumer.Consume: its own contract only bounds the number of lines. What it prints and when it panics are stated by the lemmas `ConsumePanicsIff`, `ConsumeAppend`, `PanicStops` and `ConsumeRecords`.
- Events.OpenatLine, Events.ExecveLine, Events.ConnectLine: the split back into fields is stated only when the cleaned name (and filename) hold no space. A name with a space makes the printed line ambiguous, because the format separates fields with single spaces and does not quote them.
- Analyzer.ResolvePath: the oracle answers the same way each time it is asked, so a link that changes between two reads is not modelled.
