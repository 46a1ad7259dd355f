# gopsutil: verified model of its stateful and parsing core

gopsutil reports on processes, CPUs, disks and networks. Most of it is system calls; this project
models the parts that have state, parsing or arithmetic of their own, with everything the system
delivers (bytes, lines, clock readings, directory listings, failures) as input, and proves what
those parts are for. `dafny verify dfyconfig.toml` checks the whole project.

| file | component |
|---|---|
| `AixSnapshot.dfy` | the shared process-table snapshot of AIX: a cache with an age limit, a refresh on a miss and refreshes that fail |
| `ConnectionKey.dfy`, `InodeIndex.dfy`, `SocketAddress.dfy`, `ConnectionListing.dfy` | the Linux connection listing: inode index, address decoding, rows, de-duplication |
| `WindowsEnviron.dfy` | the environment block of a Windows process, read in chunks of any size |
| `DarwinProcArgs.dfy` | argv and envp out of the Darwin `kern.procargs2` buffer |
| `ProcStat.dfy`, `Smaps.dfy` | `/proc/<pid>/stat` and `/proc/<pid>/smaps` |
| `Smbios.dfy` | the SMBIOS table walk (sections 6.1.2, 6.1.3 and 7.5 of DMTF DSP0134) and the bit enumerator |
| `CpuPercent.dfy`, `ProcessPercent.dfy`, `LoadAverage.dfy` | percentages since the last call, and the load averages of Windows |
| `Mountinfo.dfy` | partitions from mountinfo |
| `ProtocolSections.dfy`, `NetstatAix.dfy`, `Nfsstat.dfy` | `netstat -s` and `nfsstat` on AIX |
| `DarwinInterfaces.dfy` | interface counters of Darwin: slots allotted by counting names |
| `Text.dfy`, `Hexadecimal.dfy` | splitting, fields, decimal and hexadecimal numbers |

Loops and objects of the source are methods and classes; each is proved equal to a specification
function, and the theorems are about that function. Where the source's text routines work on
strings, a string is a sequence of Unicode characters; where it works on bytes, a sequence of bytes.
Numbers of a fixed width wrap explicitly; `float64` is `real`.

## Findings

Places where the code does less than one would expect; each is a lemma, with the exact condition
under which the expectation does hold.

- Darwin: an empty first argument is taken for padding, so one entry of the environment is lost for each empty
  string at the head of argv (`EmptyFirstArgument`); what is returned in every case is `EnvironOfLayout`, and when
  that is the environment, `EnvironRoundTrip`.
- Darwin: with neither arguments nor environment the padding skip runs past the end of envp, so the
  strings the kernel appends are returned as environment (`NoArgsNoEnvironLeaks`, exactly when: `EnvironWithoutArgs`).
- Linux listing: the first-owner read of an inode is safe exactly when each linked inode is linked from
  some numeric descriptor name (`OwnersDefinedExactly`); the list is created before the name is parsed. A table
  goes out of range exactly when a line names an inode with an empty list (`PanicsExactly`, one such input:
  `DescriptorNamedX`), which with the decimal names the kernel gives descriptors never happens (`ConnectionsPid`).
- Linux listing: IPv6 addresses are byte-swapped on every host, so on a big-endian host they survive only
  if each word reads the same both ways (`RoundTripIPv6`); IPv4 addresses survive on both (`RoundTripIPv4`).
- Unix keys identify sockets for inodes without a dash (`PlainInodesNeverCollide`). Sockets of two inodes can share a
  key exactly when one inode extends the other by a dash and a whole number (`CollideExactly`, `DashedInodeCollides`).
  The kernel writes inodes in decimal, so such an input comes only from a foreign /proc.
- Linux listing: a unix socket path with white space is not shown (`UnixLineReadBack`).
- Linux listing: an inet connection is known by its endpoints, so of two sockets sharing a port one is listed
  (`SharedPortListsOne`; exactly which: `InodeListedExactly`).
- smaps: a mapped file with repeated, leading or trailing white space in its name is shown under another name
  (`DoubleBlankIsLost`); all other names are read back (`HeaderReadBack`).
- mountinfo: with an empty source the superblock options are shown as the source (`SourceReadBack`).
- Windows: a read that is refused between the two bytes of the closing zero adds an empty variable; any other end
  behind the last string is harmless (`ReadFarEnough`).
- CPU percent: a sample that is overtaken by a later one is counted twice (`OvertakingBreaksConservation`); busy time
  is never under-reported, and is reported exactly if and only if no exchange steps back (`BusyTimeConserved`).
- Process percent: CPU time used between two equal clock readings is lost (`EqualClockLosesTime`), and nothing else
  is (`UsageConserved`).
- mountinfo: an unlisted mount may give its device a name that the shorter listing does not show
  (`MixedTypesDiffer`); the exact condition is on resolved first names (`NotAllIsFiltered`).
- mountinfo: a mount whose superblock options hold no mode is shown writable on its own options alone
  (`WritableWithoutSuperblock`), contrary to the comment at disk/disk_linux.go:370-372; in all other cases the comment
  is right (`WritableNeedsBothExactly`).
- nfsstat: a heading for another protocol version is taken for a row of names, so the rows below it are filed under
  the version before it and replace its counts (`VersionFourReplacesThree`, `OtherVersionReplaces`); a number
  that only starts with 2 or 3 is taken for that version; exactly when rows are filed rightly is `FiledUnderOwnVersion`.
- nfsstat: a number beyond 64 bits counts as 2^64-1 (`NumberReadBack`), although the comment at nfs/nfs_aix.go:260
  promises 0 on error; that holds exactly when no digits at the start are out of range (`ZeroOnErrorExactly`).
- AIX snapshot: the age limit is counted from the stamp taken after the read, so the rows behind an answer may be
  older than the limit by the time the read took (`SlowReadAges`); they never are exactly when reads take no time
  (`YoungExactlyWhenInstant`).

## Model

| member | source | states |
|---|---|---|
| AixSnapshot.EntryOf | process/process_aix.go:104 | counters in the uint64 range are stored unchanged, each in its own field |
| AixSnapshot.IndexIsDirect | process/process_aix.go:101-105 | the map built from a table has exactly the listed pids, each with its last row |
| AixSnapshot.AixPs.ResetAIXPS | process/process_aix.go:89-93 | drops the snapshot and asks the system nothing |
| AixSnapshot.AixPs.RefreshAIXPS | process/process_aix.go:96-108 | one table read; a failure leaves the snapshot, a success replaces it and stamps it after the read |
| AixSnapshot.AixPs.AixPSFor | process/process_aix.go:112-133 | the object's fields, the system's question count and the answer follow the lookup step |
| AixSnapshot.StepKeepsInv | process/process_aix.go:89-133 | every lookup and reset keeps: a loaded snapshot is the last table read successfully, with its stamp |
| AixSnapshot.RunKeepsInv | process/process_aix.go:89-133 | the same over every run of lookups, resets and failures |
| AixSnapshot.LookupMeaning | process/process_aix.go:112-133 | without a read: found in the last good table, stamped less than the maximum age before the check; otherwise exactly one read, and found, not running or failed is what that very read says; a failed read keeps the snapshot |
| AixSnapshot.RunAnswers | process/process_aix.go:89-133 | that meaning for every answer of every run from the start |
| AixSnapshot.ReadsAtMostLookups | process/process_aix.go:112-133 | a run reads the table at most once per call |
| AixSnapshot.ResetForcesRead | process/process_aix.go:89-133 | after a reset the next lookup reads the table and answers from that very read |
| AixSnapshot.AnswerAge | process/process_aix.go:110-133 | over any run in which reading takes at most d, the rows behind an answer are younger than the maximum age plus d |
| AixSnapshot.SlowReadAges | process/process_aix.go:106-116 | for every d, a run with one read of length d whose second answer is the maximum age less a nanosecond plus d old |
| AixSnapshot.YoungExactlyWhenInstant | process/process_aix.go:110-116 | all answers of all runs are younger than the maximum age if and only if reading takes no time |
| AixSnapshot.AnswersNeverGoBack | process/process_aix.go:34-36 | with counters that never fall and pids not reused, later answers for a pid are never lower, across resets and failures |
| AixSnapshot.ScrapeReadsNothing | process/process_aix.go:34-36 | lookups of known pids within the age limit read the table not at all, however many |
| ConnectionKey.InetKeyInjective | net/net_linux.go:416-427 | equal inet keys have equal type, local, remote and status |
| ConnectionKey.UnixKeyInjective | net/net_linux.go:416-427 | equal unix keys have equal pid, fd, inode, type and path, whatever the path contains |
| ConnectionKey.FamiliesNeverMeet | net/net_linux.go:422-427 | no inet key equals a unix key |
| ConnectionKey.KeyIsIdentity | net/net_linux.go:416-427 | keys are equal if and only if the rows are the same connection |
| ConnectionKey.DashedInodeCollides | net/net_linux.go:424 | if an inode extends another by a dash and a whole number, any socket of the longer has the key of some socket of the shorter |
| ConnectionKey.CollideExactly | net/net_linux.go:416-427 | sockets of two inodes can differ and share a key if and only if one inode extends the other in that way |
| ConnectionKey.PlainInodesNeverCollide | net/net_linux.go:416-427 | so inodes without a dash never collide |
| InodeIndex.AddEntry | net/net_linux.go:501-527 | one descriptor adds at most its own holder, under its inode only; out of range exactly for a bare "socket:[" |
| InodeIndex.GetProcInodes | net/net_linux.go:488-530 | the index of a process: exactly the linked inodes, each with its holders in scan order; out of range exactly if some link is a bare "socket:[" |
| InodeIndex.UpdateMap | net/net_linux.go:824-834 | every key holds the old list followed by the added one, in whatever order the map is visited |
| InodeIndex.GetProcInodesAll | net/net_linux.go:604-626 | gone processes are skipped, the first real error or bad link ends the scan, otherwise the index over all processes |
| InodeIndex.FinishedExactly | net/net_linux.go:610-625 | a scan covers all processes if and only if none fails for a real reason and no link is bare |
| InodeIndex.EndsAtFirst | net/net_linux.go:611-618 | otherwise it ends at the first process in error or with a bare link, with what that says |
| InodeIndex.HeldExactlyByNumber | net/net_linux.go:513-527 | an inode has a holder if and only if a numeric descriptor name links to it |
| InodeIndex.OwnersDefinedExactly | net/net_linux.go:512-520 | no list is empty if and only if each linked inode is linked from a numeric name |
| InodeIndex.DecimalNamesSuffice | net/net_linux.go:727-731 | with decimal descriptor names the first-owner read is always defined |
| InodeIndex.OneProcessOwners | net/net_linux.go:402-407 | the same for the index of a single process |
| InodeIndex.HoldersArePairs | net/net_linux.go:522-526 | as a set, the holders in the merged index are the (pid, fd) pairs linking to the inode |
| InodeIndex.FirstHolderIsFirstLink | net/net_linux.go:501-527 | the first holder is the earliest numeric descriptor, of the earliest process that has one, linking to the inode |
| InodeIndex.OneProcessIsScan | net/net_linux.go:404 | the index of one process is that of a scan over it alone, so what is said of scans holds for queries of one pid |
| InodeIndex.IndexedExactly | net/net_linux.go:501-520 | an inode is in the merged index if and only if some descriptor links to it |
| SocketAddress.Reverse | net/net_linux.go:677-682 | the slice is reversed in place and nothing else changes |
| SocketAddress.ParseIPv6HexString | net/net_linux.go:685-696 | fails unless 16 bytes; otherwise each 4-byte word reversed |
| SocketAddress.DecodeAddress | net/net_linux.go:643-675 | the decoded endpoint, or none for a missing port, bad port, bad hexadecimal or bad length |
| SocketAddress.RoundTripIPv4 | net/net_linux.go:639-675 | every IPv4 endpoint the kernel writes is read back, on either byte order |
| SocketAddress.RoundTripIPv6 | net/net_linux.go:641-675 | every IPv6 endpoint is read back if and only if the host is little-endian or each word is a palindrome |
| ConnectionListing.InetRow | net/net_linux.go:717-760 | rows belong to the pid asked for, and with plain IP text fit the keys' assumptions |
| ConnectionListing.InetLineReadBack | net/net_linux.go:717-760 | a kernel line gives its own endpoints, state and the first owner of its inode, or nothing if another pid was asked for |
| ConnectionListing.InetTableReadBack | net/net_linux.go:698-763 | a whole inet table: the title is passed over and every line gives its endpoints, state and first holder, in order |
| ConnectionListing.InetRowOwner | net/net_linux.go:726-735 | pid and fd of an inet row are those of the first numeric link to its inode in the scanned directories, and 0 exactly if nothing links to it |
| ConnectionListing.ListedOwners | net/net_linux.go:393-485 | the same for every inet entry of a whole listing |
| ConnectionListing.ProcessInet | net/net_linux.go:698-763 | the rows of a table in order; an absent IPv6 table is empty, any other missing table an error; out of range at the first line whose inode has an empty list |
| ConnectionListing.ReadInetLine | net/net_linux.go:717-760 | one line gives the specified row or none, or goes out of range |
| ConnectionListing.PanicsExactly | net/net_linux.go:726-731 | reading an inet table goes out of range if and only if some line names an inode with an empty list |
| ConnectionListing.OwnersDefinedNeverPanics | net/net_linux.go:429-485 | with an index without empty lists no listing goes out of range |
| ConnectionListing.OddNameGoesOutOfRange | net/net_linux.go:512-731 | a descriptor whose name is no number and a table line naming its socket end the listing out of range |
| ConnectionListing.DescriptorNamedX | net/net_linux.go:512-731 | such a directory and such a line |
| ConnectionListing.ProcessUnix | net/net_linux.go:765-822 | one row per holder of each line's inode; a bad type column fails the table |
| ConnectionListing.ReadUnixLine | net/net_linux.go:781-819 | one line gives a row per wanted holder |
| ConnectionListing.UnixLineReadBack | net/net_linux.go:781-819 | a kernel line gives its own type and inode for every wanted holder; its path is read back if and only if it holds no white space, and is shown as its only word or not at all otherwise |
| ConnectionListing.UnixTableReadBack | net/net_linux.go:765-822 | a whole unix table: the title is passed over and every line gives one row per wanted holder, with that holder's pid and fd, in order |
| ConnectionListing.ToStat | net/net_linux.go:457-470 | the reported fields carry the identity the key stands for |
| ConnectionListing.KeyKnownExactlyWhenSeen | net/net_linux.go:451-455 | the duplicate map knows a key if and only if the connection was listed |
| ConnectionListing.AddRows | net/net_linux.go:451-481 | adding a table's rows keeps the rows whose key is new, and the keys of all rows |
| ConnectionListing.StatsFromInodes | net/net_linux.go:429-485 | the rows of all tables in order, without those whose key came before; otherwise what the first bad table ends with |
| ConnectionListing.TablesInOrder | net/net_linux.go:433-451 | the rows of each table follow those of the tables before it |
| ConnectionListing.ConnectionsPid | net/net_linux.go:393-414 | a whole query from descriptor directories to listing: one unreadable process gives an empty listing, a bad scan an error; with decimal descriptor names and closed links nothing goes out of range |
| ConnectionListing.FreshKeysAreFirstRows | net/net_linux.go:416-485 | for well-formed rows that is the first row of every distinct connection |
| ConnectionListing.ListingIsFirstRows | net/net_linux.go:416-485 | so is the whole listing, for IP text and unix inodes without a dash |
| ConnectionListing.ListedOnceEach | net/net_linux.go:416-485 | every connection found is listed, and none twice |
| ConnectionListing.InodeListedExactly | net/net_linux.go:451-455 | an inode is listed if and only if one of its rows is of a connection not seen before under another inode |
| ConnectionListing.UnixInodesListed | net/net_linux.go:416-455 | every unix inode found is listed |
| ConnectionListing.SharedPortListsOne | net/net_linux.go:417-427 | of two sockets with the same endpoints only the first is listed |
| ConnectionListing.OnlyThatProcess | net/net_linux.go:733-735 | a listing for one pid holds rows of that pid only |
| WindowsEnviron.ProcessReader.Read | process/process_windows.go:1200-1208 | any non-empty part of what is left, or nothing at the end or when refused; the offset moves by what was returned |
| WindowsEnviron.SplitAtNul | process/process_windows.go:1158-1173 | cuts at the first aligned zero unit; at the end of memory the remainder is a token; otherwise asks for more |
| WindowsEnviron.FirstOfPrefix | process/process_windows.go:1158-1173 | what the split says about the data read so far is right about all of memory |
| WindowsEnviron.TokenFound | process/process_windows.go:1158-1173 | the token found in the data read so far is that of the memory, wherever reading stops behind it |
| WindowsEnviron.Scanner.Scan | process/process_windows.go:1153-1175 | token and remaining memory depend on where reading can stop, not on the chunks; the position keeps its parity until the end |
| WindowsEnviron.ConvertUTF16 | process/process_windows.go:1329-1338 | the little-endian code units of the bytes |
| WindowsEnviron.EnvironmentVariables | process/process_windows.go:1153-1192 | however memory is cut into chunks, the result is the environment of the memory up to the point where reading ended, the end of memory unless a read was refused |
| WindowsEnviron.EnvironmentRoundTrip | process/process_windows.go:1153-1192 | any list of non-empty NUL-free strings followed by an empty one is read back, whatever memory follows |
| WindowsEnviron.ReadFarEnough | process/process_windows.go:1153-1208 | wherever reading stops in or behind a block, its variables are returned if and only if that is no earlier than the end of the last string and not between the two bytes of the closing zero |
| DarwinProcArgs.ParseCmdline | process/process_darwin.go:467-488 | the clamped run of chunks behind the padding |
| DarwinProcArgs.ParseEnviron | process/process_darwin.go:651-689 | the KEY=VALUE chunks behind argv up to the first empty one |
| DarwinProcArgs.EntryExactly | process/process_darwin.go:682-685 | an entry is a non-empty key, the first equals sign and a value |
| DarwinProcArgs.ArgumentCount | process/process_darwin.go:472-486 | as many arguments as the count says, none for a negative count, and no more than there are chunks behind the padding |
| DarwinProcArgs.CmdlineRoundTrip | process/process_darwin.go:453-488 | argv is read back if and only if it is empty or its first element is not the empty string |
| DarwinProcArgs.EnvironOfLayout | process/process_darwin.go:628-689 | on every laid-out buffer the result is that of the environment and what follows it, less one string per empty string at the head |
| DarwinProcArgs.EnvironRoundTrip | process/process_darwin.go:628-689 | for every layout: envp is read back if and only if all its elements are KEY=VALUE and the KEY=VALUE strings up to the next empty one behind it make up, string by string, for what leading empty strings cost |
| DarwinProcArgs.EnvironRoundTripPlain | process/process_darwin.go:628-689 | when no empty string leads argv and envp: if and only if all elements are KEY=VALUE and no string up to the next empty one behind envp is |
| DarwinProcArgs.EmptyArgsLoseEntries | process/process_darwin.go:657-673 | when nothing leaks, each empty string at the head of argv costs the first remaining entry of envp |
| DarwinProcArgs.EmptyFirstArgument | process/process_darwin.go:657-673 | with a single empty argument A=1 of the environment A=1, B=2 is lost |
| DarwinProcArgs.PaddingStopsLeak | process/process_darwin.go:639-650 | padding or the buffer end behind envp stops the reading |
| DarwinProcArgs.EnvironWithoutArgs | process/process_darwin.go:657-688 | with no argument and no environment, nothing is returned if and only if the first run of strings behind the padding holds no KEY=VALUE |
| DarwinProcArgs.NoArgsNoEnvironLeaks | process/process_darwin.go:657-688 | a concrete appended string returned although padding precedes it |
| DarwinProcArgs.ChunkRanges | process/process_darwin.go:467-689 | in every buffer argv and envp come from adjacent, disjoint chunk ranges |
| ProcStat.SplitProcStat | process/process_linux.go:1218-1235 | defined on all bytes; fails exactly without a whole "(comm) " |
| ProcStat.FieldsAtTheirIndex | process/process_linux.go:1218-1235 | whatever comm contains, field k of the line is at index k, for fields free of white space in UTF-8 |
| Smaps.GetBlock | process/process_linux.go:420-464 | the record of a block, or failure at the first value that is no number |
| Smaps.MemoryMaps | process/process_linux.go:400-502 | ungrouped the records; grouped one record without path, each counter the plain sum of that counter over the records modulo 2^64; both fail on the same texts |
| Smaps.SumMeaning | process/process_linux.go:478-489 | counter by counter, the grouped record is the plain sum modulo 2^64 |
| Smaps.OneRecordPerMapping | process/process_linux.go:469-499 | newline-terminated well-formed mappings give one record each, in order, the last included |
| Smaps.SectionsOfText | process/process_linux.go:472-499 | the closing line ends the last mapping and is otherwise ignored |
| Smaps.BlockMeaning | process/process_linux.go:420-464 | a block fails if and only if a value is no number; otherwise each counter is the value of the last line with its key, 0 without one, in any order and among any other lines |
| Smaps.AttributeRoundTrip | process/process_linux.go:426-438 | a line with any padding, with or without unit, or the flags line, is no header, and key and number are read back |
| Smaps.HeaderReadBack | process/process_linux.go:420-423 | any header of five padded columns and a path is a header, and the path is read back if and only if each white space character in it is a single inner blank |
| Smaps.DoubleBlankIsLost | process/process_linux.go:422 | a path with two blanks in a row is shown with one |
| Smaps.RecordRoundTrip | process/process_linux.go:420-464 | a block below any header whose lines carry a record, in any order, padded, with foreign lines and missing zero counters, gives all its counters, and the record itself if and only if its path is single-spaced |
| Smaps.OrderDoesNotMatter | process/process_linux.go:425-461 | every permutation of such a block gives the same record |
| Smaps.TextRoundTrip | process/process_linux.go:417-501 | any list of records carried by such blocks and headers in a newline-terminated text is read in order and complete, exactly if and only if all paths are single-spaced |
| Smaps.GroupedTextRoundTrip | process/process_linux.go:400-502 | grouped, such a text gives the sums of the records it was written from |
| Smbios.Walk | cpu/cpu_windows.go:475-522 | for every buffer the counter-free result; neither failsafe nor the 16-byte check is ever the reason to stop |
| Smbios.SkipStrings | cpu/cpu_windows.go:506-516 | the end of the string set, in fewer iterations than there are bytes |
| Smbios.Next | cpu/cpu_windows.go:505-520 | the walk strictly advances |
| Smbios.FirstProcessor | cpu/cpu_windows.go:478-521 | the structure found qualifies and lies in the buffer |
| Smbios.RegistersAreReversedBytes | cpu/cpu_windows.go:495-502 | the printed registers are the eight id bytes in reverse order |
| Smbios.NextOfEncoded | cpu/cpu_windows.go:505-520 | stepping over an encoded structure lands on the byte behind it |
| Smbios.FindsFirstProcessor | cpu/cpu_windows.go:475-522 | in a well-formed table the first processor structure is reported, with its own family and id |
| Smbios.StopsAtEndOfTable | cpu/cpu_windows.go:485-487 | nothing behind the end-of-table structure is looked at |
| SetBits.ClearsLowest | cpu/cpu_windows.go:219 | m & (m-1) loses exactly the lowest set bit |
| SetBits.ForEachSetBit | cpu/cpu_windows.go:214-221 | the calls are exactly the set bits, in ascending order |
| CpuPercent.CalculateBusy | cpu/cpu.go:118-129 | every percentage lies between 0 and 100 |
| CpuPercent.CalculateAllBusy | cpu/cpu.go:131-145 | one percentage per CPU, or an error for different lengths |
| CpuPercent.LastPercent.PercentUsedFromLastCall | cpu/cpu.go:182-202 | the new sample is stored whatever the answer; the other kind is untouched |
| CpuPercent.LastPercent.SampleTimes | cpu/cpu.go:183-186 | the half of a call outside the lock is the sample event of the interleaved run |
| CpuPercent.LastPercent.ExchangeTimes | cpu/cpu.go:187-201 | the half under the lock is the exchange event of the run, and its answer is that of the window it adds |
| CpuPercent.WindowsChain | cpu/cpu.go:182-202 | under every interleaving a window starts at the sample the previous exchange of its kind stored, even after a length mismatch; an error is answered exactly without such a sample or for another length, otherwise one value in [0,100] per CPU |
| CpuPercent.PercentInFields | cpu/cpu.go:106-129 | field by field, for any counters: 0 if user, system, nice, irq, softirq, steal and off Linux guest time have not grown, 100 if all time has grown by less, otherwise their ratio, with idle and iowait in the total alone |
| CpuPercent.PercentTimesDelta | cpu/cpu.go:106-129 | for counters that do not fall, percent times elapsed time is 100 times working time, both sums of fields |
| CpuPercent.BusyTimeConserved | cpu/cpu.go:106-202 | under every interleaving with counters that never fall these products add up to at least 100 times the working time of the run, and to exactly that if and only if no exchange stored less working time than it replaced |
| CpuPercent.InOrderConserves | cpu/cpu.go:106-202 | in particular when samples are exchanged in the order taken |
| CpuPercent.OvertakingBreaksConservation | cpu/cpu.go:182-202 | two callers that overtake each other report all busy time up to the later sample, where only that up to the earlier one was used |
| ProcessPercent.Process.PercentWithContext | process/process.go:258-289 | answer and remembered reading for every kind of call, failures included |
| ProcessPercent.PercentTimesElapsed | process/process.go:283-285 | the CPU count cancels out |
| ProcessPercent.IntervalCall | process/process.go:265-277 | a call with an interval measures between its own two readings, whatever was remembered, and leaves the second remembered, or the first if it fails behind it |
| ProcessPercent.ZeroIntervalCall | process/process.go:278-289 | a call without one measures from the remembered reading to its own, which it leaves remembered |
| ProcessPercent.RunAccounts | process/process.go:258-289 | for any clock, counters and failures a run mixing both kinds of call reports exactly the CPU time counted between successive readings, except up to those that open an interval |
| ProcessPercent.UsageConserved | process/process.go:258-337 | with counters that never fall, all CPU time used in the windows of a run is reported if and only if none fell between equal clock readings; never more than all |
| ProcessPercent.EqualClockLosesTime | process/process.go:326-329 | two calls at one clock reading report nothing of the CPU time used between them |
| ProcessPercent.UsageConservedByAdvancingClock | process/process.go:258-289 | without intervals and with a strictly increasing clock all CPU time since the first reading is reported |
| LoadAverage.LoadAverages.Tick | load/load_windows.go:44-52 | each average is that of all samples so far; the error is that of the last tick |
| LoadAverage.ClosedForm | load/load_windows.go:48-50 | an average is the sum of (1-f) f^(n-1-k) x_k |
| LoadAverage.AverageBounded | load/load_windows.go:48-50 | for non-negative samples it lies between 0 and the largest |
| LoadAverage.ConstantLoad | load/load_windows.go:48-50 | constant load c gives c (1-f^n) |
| LoadAverage.ThreeAveragesOrdered | load/load_windows.go:30-50 | under rising load the 1, 5 and 15 minute averages stay in descending order |
| LoadAverage.IdleDecay | load/load_windows.go:48-50 | once idle an average decays by its factor at each tick |
| Mountinfo.EffectiveMountOpts | disk/disk_linux.go:446-468 | the options with the effective mode in the place of the first mode |
| Mountinfo.OneEffectiveMode | disk/disk_linux.go:446-478 | exactly one mode, the effective one; the other options keep their order |
| Mountinfo.ModeInPlace | disk/disk_linux.go:452-467 | the effective mode stands where the first mode stood, or in front |
| Mountinfo.ReadOnlyExactly | disk/disk_linux.go:446-478 | shown read-only if and only if one of the option sets is |
| Mountinfo.WritableExactly | disk/disk_linux.go:446-478 | shown writable if and only if the mount options say rw and neither option set says ro |
| Mountinfo.WritableNeedsBothExactly | disk/disk_linux.go:370-373 | the rule that both option sets must be read-write fails if and only if the mount is read-write and the superblock options hold no mode |
| Mountinfo.WritableWithoutSuperblock | disk/disk_linux.go:366-373 | a line without superblock options for which that rule fails |
| Mountinfo.LineReadBack | disk/disk_linux.go:334-369 | each field of a line ends up in its place, with any number of optional fields; empty fields behind the separator are passed over |
| Mountinfo.NoSeparator | disk/disk_linux.go:334-340 | a line without the separator is refused |
| Mountinfo.SourceReadBack | disk/disk_linux.go:360-369 | a line is read back if and only if its source is not empty; otherwise the superblock options become the source |
| Mountinfo.ParseFieldsOnMountinfo | disk/disk_linux.go:330-444 | the error of the first bad line, independent of the mode; otherwise the rows of the mode |
| Mountinfo.AllLinesRead | disk/disk_linux.go:334-369 | a file is read if and only if every line is, each mount from its own line |
| Mountinfo.FirstBadLine | disk/disk_linux.go:343-363 | otherwise the error is that of the first bad line |
| Mountinfo.FindSubvol | disk/disk_linux.go:398-406 | a subvolume if and only if the option at the first subvol= position is subvol= followed by the root directory |
| Mountinfo.TakeMount | disk/disk_linux.go:373-441 | one mount: the device map and the row, if any, of the step |
| Mountinfo.RowShown | disk/disk_linux.go:373-441 | from the fields alone what each mount adds: left out if unlisted, or a subdirectory other than its subvolume, when not all are wanted; otherwise its own mount point, type and options, "bind" exactly for such a subdirectory, and the source or root of the first mount of its device |
| Mountinfo.SeenIsFirstName | disk/disk_linux.go:390-413 | the device map holds the name of the first mount considered, binds included |
| Mountinfo.FirstNameIsFirst | disk/disk_linux.go:390-413 | that name is the own device of the first mount of the id that is considered |
| Mountinfo.NotAllIsFiltered | disk/disk_linux.go:375-417 | not asking for all gives exactly the listed rows that are no binds if and only if for each of them the first mount of its device, among all and among the listed ones, resolves to the same name |
| Mountinfo.NotAllOnKernelFiles | disk/disk_linux.go:330-444 | so it does when rows sharing a device id share a filesystem type |
| Mountinfo.MixedTypesDiffer | disk/disk_linux.go:377-413 | an unlisted mount before a listed one on the same device id changes the name shown |
| ProtocolSections.ParseSections | net/net_aix.go:52-124 | the loop with its carried protocol and counters |
| ProtocolSections.SelectionFilters | net/net_aix.go:61-68 | parsing with a protocol list is filtering the full parse |
| ProtocolSections.SectionsAreIndependent | net/net_aix.go:58-73 | nothing is carried over a header |
| ProtocolSections.SectionSums | net/net_aix.go:75-112 | a section has exactly the keys its lines mention, each with the wrapped sum of its values |
| ProtocolSections.OneLineOneKey | net/net_aix.go:105-111 | an accepted line adds to exactly one key |
| ProtocolSections.SectionTotal | net/net_aix.go:75-112 | the stored values of a section add up, modulo 2^64, to its accepted counts |
| NetstatAix.ParseNetstatS | net/net_aix.go:52-124 | the parse of the split output |
| NetstatAix.ReadCountLine | net/net_aix.go:77-111 | an indented line gives the specified key and value or nothing |
| NetstatAix.HeaderReadBack | net/net_aix.go:58-73 | a line in the first column opens the section of its name |
| NetstatAix.SectionReadBack | net/net_aix.go:52-124 | a header and a counter line give one section of that name with that count under the line's key |
| NetstatAix.EmptySectionLeftOut | net/net_aix.go:61-68 | a section without counters is left out |
| NetstatAix.CountLineReadBack | net/net_aix.go:77-111 | any counter line is counted once, under the MIB-II name of its depth and normalised description, or its camelCase name if it has none |
| NetstatAix.SubCountDropped | net/net_aix.go:126-138 | a parenthetical with any contents is dropped and the words around it joined by single spaces |
| NetstatAix.NoSubCount | net/net_aix.go:126-132 | a description without a parenthetical stays as it is |
| NetstatAix.ProtoKey | net/net_aix.go:143-277 | MIB-II names (section 6 of RFC 1213) start with a capital |
| NetstatAix.TotalsOnlyAtTopLevel | net/net_aix.go:157-163 | the segment totals come from one top-level line each |
| NetstatAix.DescToCamelCase | net/net_aix.go:732-763 | the camelCase name of the description |
| NetstatAix.FirstWordSmall | net/net_aix.go:732-763 | the first word is written in small letters |
| NetstatAix.NextWordCapitalised | net/net_aix.go:732-763 | every further word follows with its first letter capital and the others small |
| NetstatAix.NameEndsAtParenthesis | net/net_aix.go:732-740 | what follows an opening parenthesis is no part of the name |
| NetstatAix.CamelCaseStartsLower | net/net_aix.go:732-763 | a camelCase name starts with a small letter or a digit |
| NetstatAix.StylesNeverCollide | net/net_aix.go:100-108 | no MIB-II name is the camelCase name of any description |
| Nfsstat.SetCounterMeaning | nfs/nfs_aix.go:179-251 | adding under a column changes that counter of that section alone |
| Nfsstat.ZeroOnErrorExactly | nfs/nfs_aix.go:260-264 | a field that is no 64-bit number counts as 0 if and only if no run of digits at its start is beyond 64 bits, and as 2^64-1 otherwise |
| Nfsstat.NumberReadBack | nfs/nfs_aix.go:260-264 | a number that fits is read back, any other counts as 2^64-1 |
| Nfsstat.StatsStat.ApplyNamedValues | nfs/nfs_aix.go:133-150 | names and values are matched one to one up to the shorter row |
| Nfsstat.StatsStat.ApplyOperationCounts | nfs/nfs_aix.go:155-177 | counts stand at every other token, stored under the version's prefix |
| Nfsstat.StatsStat.ParseNfsstat | nfs/nfs_aix.go:70-129 | a run changes the counters as the pairs of adjacent name and value rows do, and in no other way |
| Nfsstat.StatsStat.ParseOutput | nfs/nfs_aix.go:70-129 | the same for the text of the command |
| Nfsstat.NonBlankHasFields | nfs/nfs_aix.go:77-110 | the guard for a line without fields never decides |
| Nfsstat.SectionHeadings | nfs/nfs_aix.go:83-95 | each of the four headings opens its own section |
| Nfsstat.TransportHeadings | nfs/nfs_aix.go:96-98 | the transport headings open none |
| Nfsstat.RowsFillTheirSection | nfs/nfs_aix.go:83-150 | a pair of rows below a section line adds to the counters of that section and to no other |
| Nfsstat.CounterMeaning | nfs/nfs_aix.go:62-69 | each counter is the wrapped sum, over the pairs of its section, of the values under its name |
| Nfsstat.LayoutDoesNotMatter | nfs/nfs_aix.go:62-69 | splitting and reordering columns changes no counter |
| Nfsstat.OperationMeaning | nfs/nfs_aix.go:155-177 | each operation holds the count of the last rows of its section that name it, and is untouched without such rows |
| Nfsstat.CountInExactly | nfs/nfs_aix.go:167-175 | versioned rows count for an operation if and only if they are of its version and name it |
| Nfsstat.VersionsAreIndependent | nfs/nfs_aix.go:167-175 | the operations of v2 are what they would be without the rows of v3, and conversely |
| Nfsstat.HeadingRecognised | nfs/nfs_aix.go:100-117 | a version heading is recognised if and only if the version starts with 2 or 3; any other is a row of names |
| Nfsstat.FiledUnderOwnVersion | nfs/nfs_aix.go:100-127 | rows are filed under the version their heading names if and only if they have no heading or it names version 2 or 3 |
| Nfsstat.OtherVersionReplaces | nfs/nfs_aix.go:100-175 | rows below another heading replace the counts of the version in force for every operation they name |
| Nfsstat.VersionFourReplacesThree | nfs/nfs_aix.go:100-175 | a text with seven null calls of version 3 and nine of version 4 shows nine for version 3 |
| DarwinInterfaces.NewMapInterfaceNameUsage | net/net_darwin.go:116-130 | every name with the number of link rows that carry it |
| DarwinInterfaces.IsTruncated | net/net_darwin.go:132-139 | whether some name is counted twice |
| DarwinInterfaces.NotTruncated | net/net_darwin.go:141-149 | the names counted once, as many as there are, in any order |
| DarwinInterfaces.SlotsMatchRows | net/net_darwin.go:178-180 | as many names counted once as link rows if and only if none is counted twice |
| DarwinInterfaces.IOCounters | net/net_darwin.go:178-191 | without a repeated name every slot is filled in bounds and the result is the link rows in order |

## Left out

- ConnectionListing.StatsFromInodes: the lookup of owner uids and the table of kinds are not modelled.
- ConnectionListing.ListingIsFirstRows: takes from net.IP.String and from the kernel that IP text and unix inodes contain no dash.
- SocketAddress.DecodeAddress: stops at address bytes; their text form is a parameter of the listing.
- WindowsEnviron.Scanner.Scan: models the contract of bufio.Scanner, not its token size limit; context cancellation has no effect in the source and none here.
- WindowsEnviron.ConvertUTF16: stops at code units; two bytes are combined by addition instead of bitwise or.
- parseCommandLineInformation, the process-parameter block readers and the native command-line fallback: straight-line field reads.
- Smaps.MemoryMaps: the choice between smaps and smaps_rollup is not modelled; the text is given.
- Smbios.Walk: fetching the firmware table is not modelled; register values are combined by addition instead of bitwise or.
- LoadAverage.ThreeAveragesOrdered: the smoothing factors are any with 0 < f1 < f5 < f15 < 1 instead of exponentials.
- Mountinfo.ParseFieldsOnMountinfo: device links and octal escapes are parameters; the older mounts file is not modelled.
- DarwinInterfaces.IOCounters: the branch for truncated names runs further commands and is not modelled; row parsing and the columns of a row are not modelled.
- IEEE rounding of float64 in percentages and averages.
- readPidsFromDir and lookupAIXTTY of AIX: a filter and a single map lookup.
- docker, host, mem, sensors, winservices and the remaining platform files: field-by-field copies and system calls.
