# The hard core of a Redis 7.4 server, modelled and verified

This project models the parts of the Redis server sources (`redis-stable/src`)
whose correctness rests on more than one function: the append only file, ACL
command rules, CRC-64, clients blocked on keys, background jobs, bit
operations, cluster slots and routing, and the linked list under most of them.
Each part is written in the form of its source. Code that updates objects is a
class whose methods are proved against functions of the old state; loops are
loops with invariants; protocols with crashes or threads are state machines
whose steps may interleave in every order.

`dafny verify dfyconfig.toml` checks the whole project.

## What is proved

**Append only file** (`Manifest*`, `Aof*`, `Sds`). The manifest is modelled
down to its text: printing, the argument splitter and the strict loader.
`ManifestRuns.ReachableRoundTrip` says exactly which manifests survive a
restart. `AofRecovery.RecoverPlainLog` and `RecoverLog` say what loading any
byte prefix of a log executes and leaves in the file. `AofRewrite` is the
background rewrite as a state machine over memory and disk, with commands and
transactions running and a crash between any two steps, and
`AofCrashSafety.CrashSafety` is the theorem about its runs. `AofFlush` covers
short writes, errors and truncation, and `AofEmit` the commands a rewrite emits
for lists and sets.

**ACL rules** (`Acl*`). A selector keeps a compacted text of the rules applied
to it. `AclDescribe.DescribeNeverPanics` shows that replaying this text always
rebuilds the selector. It rests on each removed rule being covered by the rule
it was removed for, and on the in-place scan of the text acting on the list of
rules the text spells.

**CRC-64** (`Crc*`). The slice-by-8 computation for both byte orders is the
bit-by-bit polynomial register, for every buffer and alignment. The register
is shown to be linear and injective, which gives the detection of every change
within eight bytes.

**Blocked clients** (`Blocked*`). Five indexes and counters agree in every
reachable state. The loop over a ready key, which follows node addresses while
the queue changes under it, is shown to serve the clients that waited at the
start, once each and in order, and the outer loop to end.

**Background jobs** (`Bio*`). Every statement on shared state is a step of its
own. Order, counters, completions and wake-ups are proved for all
interleavings, including stray wake-ups and a full pipe.

**Bit operations** (`Bit*`, `Popcount`), **cluster** (`Glob`, `Cluster*`) and
**linked list** (`Adlist`): see the table.

## Where the code does not do what one would expect

Each of these is kept as the code has it, shown on a concrete input or family,
and accompanied by the exact condition where one is stated.

- A manifest name with a single quote is printed unquoted and does not load (`Manifest.LineRoundTrip`).
- With the AOF off, a rewrite leaves a manifest that forgets the incremental number on restart (`ManifestRuns.SaneRoundTrip`, `ManifestRuns.ForgottenNumberReused`).
- A log cut inside a command of a transaction keeps the open MULTI, and later commands are lost (`AofRecovery.AppendAfterRecovery`, `AofRecovery.TornLoses`).
- An incremental file opened by a rewrite is not in append mode, and a short write undone by ftruncate leaves a hole at the next write (`AofFlush.RunHole`, `AofFlush.RewriteFileGetsHole`).
- A forced flush that does not empty the buffer makes the rewrite repeat commands (`AofRewriteFaults.UndrainedRunsTwice`).
- A persist error reported after the rename removes the base that the manifest names (`AofRewriteFaults.FailedPersistLoads`), or leaves the server writing a file that is not named last (`AofRewriteFaults.FailedIncrLoads`).
- A first argument with a blank or quote is accepted and cannot be replayed (`AclFirstArg.OpRebuilds`).
- `_crc64` reflects its result but not its start, so its calls do not chain (`CrcSpeed.BitwiseChains`, `CrcSpeed.ChainBreaks`).
- Two threads in `bioDrainWorker` can take the wake-up meant for the worker (`BioSafety.TwoDrainersStick`); the server has one.
- BITFIELD SET with SAT takes the wrong bound far below the range of a signed field (`Bitfield.SetSaturates`) and for every negative value on an unsigned one (`Bitfield.SetSaturatesUnsigned`).
- The glob "*" does not match the empty string, and a pattern that nests more than a thousand deep matches nothing (`Glob.StringMatchExact`).
- A command that publishes or subscribes hides the later keys of its transaction while a slot migrates (`ClusterRouting.ServedWithout`).

## Model

| member | source | states |
|---|---|---|
| `Sds.AtollDec` | redis-stable/src/util.c:346-386 | Printing a number and reading it back gives the number, whatever non-digit follows. |
| `Sds.TokenRepr` | redis-stable/src/sds.c:985-1093 | The argument splitter, inside double quotes, undoes `sdscatrepr` for every byte string, including control and non-ASCII bytes. |
| `Sds.SplitJoin` | redis-stable/src/sds.c:985-1093 | Splitting a line of printed fields gives the fields back, for any list of non-empty fields that need quoting or hold no single quote. |
| `Sds.SplitCleanWords` | redis-stable/src/sds.c:985-1093 | Splitting words without blanks or quotes, joined by blanks, gives the words. |
| `Sds.TokenSingleQuote` | redis-stable/src/sds.c:1020-1075 | A word with a single quote that is printed unquoted is never read back: its token is shorter, or there is none. |
| `Manifest.AofManifest.Dup` | redis-stable/src/aof.c:372-391 | The copy has the contents of the original and is an object of its own. |
| `Manifest.AofManifest.GetNewBaseFileNameAndMarkPreAsHistory` | redis-stable/src/aof.c:408-428 | The old base goes to the head of the history, and the new base carries the next base number and the returned name. |
| `Manifest.AofManifest.GetNewIncrAofName` | redis-stable/src/aof.c:436-445 | One incremental file is appended, with the next number and the returned name. |
| `Manifest.AofManifest.MarkRewrittenIncrAofAsHistory` | redis-stable/src/aof.c:473-503 | The loop that walks the list from its tail moves exactly the files before the open one, or all of them without one, to the head of the history, in their order. |
| `Manifest.AofLoadManifestFromFile` | redis-stable/src/aof.c:237-348 | The line-by-line loader gives the manifest that the lines describe, or the first error. |
| `Manifest.LineRoundTrip` | redis-stable/src/aof.c:102-115 | A printed entry parses back to itself if and only if its name is a non-empty base name without terminator whose single quotes, if any, are protected by something else that needs quoting; an entry read under another name keeps its type. |
| `Manifest.UnprotectedQuote` | redis-stable/src/aof.c:106-110 | Counterexample family: a name with a single quote and nothing that needs quoting never comes back. |
| `ManifestRuns.ManifestRoundTrip` | redis-stable/src/aof.c:173-201 | Printing and loading a non-empty well-formed manifest gives the same base, history, incremental files and numbers. |
| `ManifestRuns.SaneDistinct` | redis-stable/src/aof.c:408-445 | No two files of a manifest that the update functions keep share a name. |
| `ManifestRuns.NextNamesFresh` | redis-stable/src/aof.c:408-445 | Neither the next base name nor the next incremental name is in use. |
| `ManifestRuns.SaneMarkRewritten` | redis-stable/src/aof.c:473-503 | Moving files to the history, with the AOF open or not, keeps numbers growing and names distinct. |
| `ManifestRuns.EditsSane` | redis-stable/src/aof.c:408-503 | After any sequence of updates, with the AOF on or off, incremental numbers grow strictly and all file names differ. |
| `ManifestRuns.LoadLongLine` | redis-stable/src/aof.c:276-279 | An entry whose line exceeds the loader's buffer is refused, whatever follows. |
| `ManifestRuns.LoadKeeps` | redis-stable/src/aof.c:257-348 | What the loader has filed it never drops or replaces. |
| `ManifestRuns.ForgottenNumber` | redis-stable/src/aof.c:318-330 | A manifest without incremental files comes back with incremental number 0: the text does not carry the number. |
| `ManifestRuns.ForgottenNumberReused` | redis-stable/src/aof.c:473-503 | Concrete run: a rewrite with the AOF off and a restart make the next incremental file take a name that the history still lists. |
| `ManifestRuns.SaneRoundTrip` | redis-stable/src/aof.c:173-348 | The exact condition for a manifest to survive a restart: it lists a file, the configured name is intact, every line fits, and the incremental number can be read off the incremental files. |
| `ManifestRuns.ReachableRoundTrip` | redis-stable/src/aof.c:173-503 | The same for every manifest that any sequence of updates leads to. |
| `AofLog.CatAppendOnlyGenericCommand` | redis-stable/src/aof.c:1256-1279 | The command's encoding is appended to the buffer. |
| `AofLog.LoadSingleAppendOnlyFile` | redis-stable/src/aof.c:1457-1614 | The loading loop gives status, executed commands and valid length as the recursive reading of the bytes does. |
| `AofRecovery.ReadCommandWhole` | redis-stable/src/aof.c:1473-1523 | A whole encoded command is read back as its arguments, and exactly its bytes are used. |
| `AofRecovery.ReadCommandCut` | redis-stable/src/aof.c:1473-1523 | A command cut at any byte is reported as an unexpected end of file, never as a format error or as another command. |
| `AofRecovery.CompleteIsLongest` | redis-stable/src/aof.c:1582-1613 | The commands counted as complete are the longest run whose encoding lies within the prefix. |
| `AofRecovery.RecoverPlainLog` | redis-stable/src/aof.c:1457-1614 | Loading any byte prefix of a log without transactions succeeds, executes exactly the longest run of complete commands, and truncates the file to exactly their encoding. |
| `AofRecovery.RecoverLog` | redis-stable/src/aof.c:1457-1614 | The same with transactions: the exact status, a transaction cut at a command boundary removed from its MULTI on, and what is executed is the effect of what is left in the file. |
| `AofRecovery.AppendAfterRecovery` | redis-stable/src/aof.c:1566-1613 | A command logged after recovery is replayed by the next load if and only if the log was not torn, that is, cut inside a command of a transaction; otherwise it lands in the transaction left open and is lost. |
| `AofRecovery.TornLoses` | redis-stable/src/aof.c:1582-1613 | Concrete log: MULTI and one byte of SET; whatever command is logged after recovery, the next load does not execute it. |
| `AofRecovery.PlainIsWhole` | redis-stable/src/aof.c:1566-1575 | A log without transactions is never torn, wherever it is cut. |
| `AofFeed.SelectText` | redis-stable/src/aof.c:1322-1331 | The SELECT that is formatted by hand is the encoding of that command. |
| `AofFeed.FeedReplays` | redis-stable/src/aof.c:1308-1347 | Whatever sequence is fed, each command is replayed in the database it was fed with. |
| `AofFeed.ClosedExecutes` | redis-stable/src/aof.c:1536-1549 | A log whose transactions are closed executes every other command, in order. |
| `AofFeed.ExecutedIsPrefix` | redis-stable/src/aof.c:1536-1575 | A cut log executes a prefix of its effects made of whole transactions, and all of them when it is not cut. |
| `AofFeed.FeedNested` | redis-stable/src/aof.c:1308-1347 | The SELECT commands put in between open and close no transaction. |
| `AofFeed.FeedAdds` | redis-stable/src/aof.c:1308-1347 | Feeding commands and whole transactions to a log adds exactly the fed commands other than MULTI and EXEC, each in its database. |
| `AofFeed.FedLogReplays` | redis-stable/src/aof.c:1308-1564 | Round trip: loading what any sequence of commands was written as executes them all, in order, each in its database. |
| `AofFlush.AppendOnlyFile.OpenOnServerStart` | redis-stable/src/aof.c:724-742 | The last incremental file is opened in append mode with its recorded size. |
| `AofFlush.AppendOnlyFile.OpenNewIncr` | redis-stable/src/aof.c:789-834 | A new incremental file is empty and not in append mode; what is left in the buffer stays there. |
| `AofFlush.AppendOnlyFile.FeedAppendOnlyFile` | redis-stable/src/aof.c:1308-1347 | The buffer grows by the encoding of the command, preceded by a SELECT when the database changes. |
| `AofFlush.AppendOnlyFile.AofWrite` | redis-stable/src/aof.c:1007-1024 | Over any sequence of short writes, interruptions and errors, exactly the bytes reported are written, and -1 means none. |
| `AofFlush.AppendOnlyFile.FlushAppendOnlyFile` | redis-stable/src/aof.c:1117-1220 | File, descriptor, buffer, recorded size and status after full, short and failed writes, with ftruncate working or not. |
| `AofFlush.FlushConserves` | redis-stable/src/aof.c:1117-1220 | One flush through a descriptor at the end of the file neither loses nor adds a byte. |
| `AofFlush.FlushConservation` | redis-stable/src/aof.c:1007-1220 | Over any interleaving of feeds and flushes of an append-mode file, the file followed by the buffer is exactly what was fed, and the recorded size is the file's. |
| `AofFlush.FlushExact` | redis-stable/src/aof.c:1117-1220 | A flush that leaves bytes in the file conserves the log if and only if the descriptor is in append mode or stands at the end of the file. |
| `AofFlush.OffsetDrifts` | redis-stable/src/aof.c:1152-1176 | Without append mode it stops standing there if and only if a short write is undone by ftruncate. |
| `AofFlush.RunHole` | redis-stable/src/aof.c:1117-1220 | Over any run of feeds and flushes of a file that is not in append mode, file and buffer are at every moment exactly what was fed if and only if no short write undone by ftruncate is followed by a flush that leaves bytes in the file. |
| `AofFlush.NewFileConserves` | redis-stable/src/aof.c:789-834 | The same for the file that a rewrite opens, with whatever is left in the buffer. |
| `AofFlush.RewriteFileGetsHole` | redis-stable/src/aof.c:789-791 | Counterexample: a short write, its truncation and a full write leave a zero byte in a file opened by a rewrite. |
| `AofCrashSafety.StepInv` | redis-stable/src/aof.c:2437-2754 | Every step of server, rewriting child, disk and crash keeps the protocol's invariant; commands and whole transactions run in between. |
| `AofCrashSafety.ExecInv` | redis-stable/src/aof.c:1308-1347 | Running commands and whole transactions, each in its own database, and feeding them keeps what a load would give equal to the live dataset. |
| `AofCrashSafety.PersistIncrInv` | redis-stable/src/aof.c:771-834 | Replacing the manifest by the one with the new incremental file moves the log over without losing or repeating a command, whether it succeeds or not. |
| `AofCrashSafety.PersistBaseInv` | redis-stable/src/aof.c:2616-2699 | Replacing base and rewritten files by the child's snapshot keeps what a load would give. |
| `AofCrashSafety.DeleteInv` | redis-stable/src/aof.c:649-673 | Deleting a history file never touches a file that the manifest on disk names. |
| `AofCrashSafety.RestartInv` | redis-stable/src/aof.c:1637-1762 | A server that is down goes on within the protocol if and only if the log is not torn, and then the invariant holds again. |
| `AofCrashSafety.InitialInv` | redis-stable/src/aof.c:694-748 | The state left by the first start satisfies the invariant. |
| `AofCrashSafety.RunInv` | redis-stable/src/aof.c:2437-2754 | So does every state of every run. |
| `AofCrashSafety.CrashSafety` | redis-stable/src/aof.c:649-2754 | After any run with crashes and restarts between any two steps: every file that the manifest on disk names exists; loading base and incremental files in order gives exactly the dataset of the completely written commands, whole transactions only, which is the live dataset once the buffer is empty; and a server that is down goes on within the protocol if and only if the log is not torn. |
| `AofCrashSafety.StepCommands` | redis-stable/src/aof.c:1308-2754 | Running commands or transactions adds exactly their commands, each in its database; a restart keeps exactly what was written, which is a prefix; every other step, including a whole rewrite, changes nothing. |
| `AofCrashSafety.RunCommands` | redis-stable/src/aof.c:1308-2754 | Over any run without a restart the commands added are those executed, in order, each in its database. |
| `AofRewriteFaults.FailedPersistLoads` | redis-stable/src/aof.c:2677-2691 | When persisting the manifest reports an error, the directory can still be loaded after the clean-up if and only if the rename had not taken place. |
| `AofRewriteFaults.FailedIncrLoads` | redis-stable/src/aof.c:799-834 | When the error comes after the rename while a new incremental file is opened, the server goes on with a file that is no longer named last: the directory can be loaded if and only if that file ends with a whole command outside a transaction. |
| `AofRewriteFaults.UndrainedRunsTwice` | redis-stable/src/aof.c:2449-2456 | If the forced flush leaves commands in the buffer, the completed rewrite makes a load run exactly those commands twice. |
| `AofEmit.RewriteItems` | redis-stable/src/aof.c:1782-1853 | The bytes written are exactly the encoding of the commands that carry the items; when a write fails they are a prefix of it. |
| `AofEmit.WriteOpening` | redis-stable/src/aof.c:1789-1798 | The header announces exactly the arguments that follow; command and key come next. |
| `AofEmit.ChunksCarry` | redis-stable/src/aof.c:1782-1853 | Every command has the key and 1 to 64 items, and together they carry all items once, in order. |
| `AofEmit.RewriteRebuilds` | redis-stable/src/aof.c:1782-1853 | Loading the stream rebuilds the list in order, or the set, under its key and touches nothing else; a stream cut at any byte rebuilds the value of the items in its complete commands. |
| `Acl.BarFrom` | redis-stable/src/acl.c:896-902 | The position is that of the first bar, or the end. |
| `Acl.LastBar` | redis-stable/src/acl.c:1122-1126 | The position is that of the last bar, or the end when there is none. |
| `AclText.RemoveJoin` | redis-stable/src/acl.c:565-607 | The in-place scan of the rule text, with its treatment of the last rule and of blanks, removes exactly the overridden rules of the list that the text spells. |
| `AclText.UpdateJoin` | redis-stable/src/acl.c:611-619 | Filing a rule on the text is filing it at the end of the list, once the rules it overrides are gone. |
| `AclReplay.LookupLower` | redis-stable/src/acl.c:896-902 | Commands are found whatever the case of the name. |
| `AclReplay.FoundName` | redis-stable/src/acl.c:896-902 | The full name of a command found is the name it was found by, up to case. |
| `AclReplay.SetSelectorEffect` | redis-stable/src/acl.c:1112-1189 | Every rule operation succeeds or fails by its name alone; when it succeeds it applies the effect of that name to bits and first arguments and files the name. |
| `AclDescribe.ContainerCovers` | redis-stable/src/acl.c:591-600 | A rule for a whole command overwrites everything that the rules for its subcommands and first arguments wrote. |
| `AclDescribe.OverrideCovers` | redis-stable/src/acl.c:591-600 | Every rule removed from the text is covered by the rule it is removed for. |
| `AclDescribe.DropAgrees` | redis-stable/src/acl.c:565-607 | Dropping covered rules anywhere in a list does not change what the later rule leaves. |
| `AclDescribe.FileRuleReplays` | redis-stable/src/acl.c:611-619 | The compacted list has the effect of the full list. |
| `AclDescribe.SetSelectorInv` | redis-stable/src/acl.c:1025-1189 | Every successful operation keeps: the text spells valid rules, none is redundant, and replaying them gives the permissions. |
| `AclDescribe.ReapplyRebuilds` | redis-stable/src/acl.c:662-695 | Starting over from +@all or -@all, chosen by the reserved bit, and applying the retained rules gives the same command bits, the same first arguments and the same rules. |
| `AclDescribe.DescribeNeverPanics` | redis-stable/src/acl.c:748-801 | After any operations on a new selector neither the assertions nor the bitmap panic of the description can be reached, recomputing changes nothing, and ALLCOMMANDS is set only when every bit is. |
| `AclDescribe.BlankFirstArgFails` | redis-stable/src/acl.c:1162-1173 | Counterexample: a first argument with a blank is accepted and then makes the description fail an assertion. |
| `AclFirstArg.SplitShort` | redis-stable/src/sds.c:985-1093 | No token of a text with a blank or a quote is as long as the text. |
| `AclFirstArg.FirstArgSpelling` | redis-stable/src/acl.c:1162-1173 | The only operation that allows a first argument of a command is the one that spells both. |
| `AclFirstArg.OpRebuilds` | redis-stable/src/acl.c:662-695 | An accepted operation on a selector that its rules rebuild leaves such a selector if and only if the operation holds no blank and no quote. |
| `AclSelector.AclSelector.SetCommandBit` | redis-stable/src/acl.c:551-559 | One bit changes, ids beyond the bitmap change nothing, and clearing a bit clears ALLCOMMANDS. |
| `AclSelector.AclSelector.RemoveCommandRule` | redis-stable/src/acl.c:565-607 | The loop that closes gaps in the buffer computes the text that the list proofs are about. |
| `AclSelector.AclSelector.UpdateCommandRules` | redis-stable/src/acl.c:611-619 | Text after filing a rule; bits and arguments stay. |
| `AclSelector.AclSelector.ChangeSelectorPerm` | redis-stable/src/acl.c:623-636 | The command's bit and those of all its subcommands change, and its first arguments are forgotten, in whatever order the dictionary is walked. |
| `AclSelector.AclSelector.SetCommandBitsForCategory` | redis-stable/src/acl.c:644-657 | The recursive walk sets exactly the bits of the category, with all subcommands of a container in it, in whatever order the table is walked. |
| `AclSelector.AclSelector.SetSelectorOp` | redis-stable/src/acl.c:1025-1189 | Every command branch, with its error; on an error the selector is unchanged. |
| `AclSelector.AclSelector.AllowBarredOp` | redis-stable/src/acl.c:1121-1175 | The forms that name a subcommand or a first argument after a bar, with their three errors; on an error nothing changes. |
| `AclSelector.AclSelector.AddAllowedFirstArg` | redis-stable/src/acl.c:933-959 | An argument is appended unless it is there in some case. |
| `AclSelector.CommandIds.GetCommandId` | redis-stable/src/acl.c:1517-1542 | A name in any case always has the same id, no two names share one, and the reserved id is never given. |
| `Crc64.CrcReflect` | redis-stable/src/crc64.c:69-78 | The shifting loop reverses the 64 bits of the word. |
| `Crc64.ReflectLoopReflects` | redis-stable/src/crc64.c:69-78 | The same for the loop as a recursion, where the reversal exchanges ever larger groups of bits. |
| `Crc64.ReflectBit` | redis-stable/src/crc64.c:69-78 | Bit i of the result is bit 63 - i of the word. |
| `Crc64.Crc64Bitwise` | redis-stable/src/crc64.c:88-111 | The loops compute the polynomial register fed bit by bit, reflected. |
| `CrcSpeed.StepsByLowByte` | redis-stable/src/crcspeed.c:43-49 | The table identity: eight steps of the register are the steps of its low byte added to the rest moved down. |
| `CrcSpeed.CrcIsBitwise` | redis-stable/src/crc64.c:88-111 | For every buffer and start, the bytewise reflected CRC is the reflection of the bit-by-bit register. |
| `CrcSpeed.CrcConcat` | redis-stable/src/crc64.c:120-123 | The CRC of a concatenation is the CRC of the second part started from that of the first. |
| `CrcSpeed.LittleInit` | redis-stable/src/crcspeed.c:33-50 | Every entry of the eight tables is the CRC of its byte followed by as many zero bytes as its row says. |
| `CrcSpeed.BigInit` | redis-stable/src/crcspeed.c:87-95 | The same entries with their bytes reversed. |
| `CrcSpeed.SliceIsEightBytes` | redis-stable/src/crcspeed.c:123-135 | One eight-table lookup is eight single bytes. |
| `CrcSpeed.CrcLittle` | redis-stable/src/crcspeed.c:112-144 | For every buffer and alignment the slice-by-8 loop gives the bytewise CRC. |
| `CrcSpeed.CrcBig` | redis-stable/src/crcspeed.c:183-213 | So does the big-endian loop over the reversed tables. |
| `CrcSpeed.CrcNative` | redis-stable/src/crcspeed.c:253-275 | `crc64` on a machine of either byte order; started from 0 it is `_crc64`. |
| `CrcSpeed.CrcInjective` | redis-stable/src/crc64.c:120-123 | Different starts never meet, whatever data follows. |
| `CrcSpeed.DetectsBurst` | redis-stable/src/crc64.c:120-123 | A change confined to eight consecutive bytes always changes the CRC, wherever it lies. |
| `CrcSpeed.BitwiseChains` | redis-stable/src/crc64.c:88-111 | Calls of `_crc64` chain if and only if the first result is its own reflection. |
| `CrcSpeed.ChainBreaks` | redis-stable/src/crc64.c:88-111 | One byte of value 1 and then any data: the two calls do not give the value of one call. |
| `BlockedInv.BlockForKeysInv` | redis-stable/src/blocked.c:359-410 | Blocking on any list of keys, with repetitions, keeps all indexes and counts in agreement. |
| `BlockedInv.ReleaseParts` | redis-stable/src/blocked.c:507-540 | Releasing an entry never meets its own assertions and takes the client off exactly that key, with the removal count. |
| `BlockedInv.LeaveInv` | redis-stable/src/blocked.c:414-428 | A client that leaves any of its keys leaves indexes and counts in agreement. |
| `BlockedInv.LeaveTwice` | redis-stable/src/blocked.c:414-428 | Leaving keys in two goes is leaving them at once, so the order of the dictionary does not matter. |
| `BlockedRuns.UnblockInv` | redis-stable/src/blocked.c:164-206 | Unblocking for whatever reason takes the client out of every queue and counter. |
| `BlockedRuns.SignalInv` | redis-stable/src/blocked.c:447-494 | Signalling a key queues it at most once. |
| `BlockedRuns.ServeInv` | redis-stable/src/blocked.c:631-670 | Serving a client keeps the agreement, whether its command completes, signals further keys, or blocks again after deleting expired keys and signalling that. |
| `BlockedRuns.IndexesAgree` | redis-stable/src/blocked.c:359-410 | A client stands in a key's queue once if it waits for the key and not at all otherwise. |
| `BlockedRuns.RunInv` | redis-stable/src/blocked.c:67-708 | Every run of connecting, blocking, signalling, serving, expiring and disconnecting keeps the agreement. |
| `BlockedRuns.ReachableAgrees` | redis-stable/src/blocked.c:67-708 | In every reachable state: key maps and queues agree, no queue is empty, the removal count of a key is present exactly when positive and equals the waiting clients that asked for it, and the counters count the blocked clients of each kind. |
| `BlockedServer.Server.BlockClient` | redis-stable/src/blocked.c:67-79 | Flag, kind and both counters. |
| `BlockedServer.Server.BlockForKeys` | redis-stable/src/blocked.c:359-410 | The loop adds each new key once, to both sides, in order. |
| `BlockedServer.Server.ReleaseBlockedEntry` | redis-stable/src/blocked.c:507-540 | Node, empty queue and removal count. |
| `BlockedServer.Server.UnblockClientWaitingData` | redis-stable/src/blocked.c:414-428 | Whatever order the keys are walked in, the client ends up in no queue and everyone else keeps their place. |
| `BlockedServer.Server.UnblockClient` | redis-stable/src/blocked.c:164-206 | The client leaves every queue and counter and is queued for reprocessing once. |
| `BlockedServer.Server.SignalKeyAsReadyLogic` | redis-stable/src/blocked.c:447-494 | The key becomes ready only for a type that can block, with clients of that kind, with a queue or a removal count, and not twice. |
| `BlockedServer.Server.UnblockClientOnKey` | redis-stable/src/blocked.c:631-670 | Release of one key, unblocking of the rest and the second run of the command, as one step. |
| `BlockedServer.Server.HandleClientsBlockedOnKey` | redis-stable/src/blocked.c:553-589 | The walk by node address, during which clients leave the queue and join it again, gives one turn to each client that waited at the start, in order, and to no other. |
| `BlockedServer.Server.HandleClientsBlockedOnKeys` | redis-stable/src/blocked.c:306-350 | The nested loops end, with no key left ready, although serving a client may make further keys ready, by writing to them or by finding them expired. |
| `BlockedServer.ServedKey` | redis-stable/src/blocked.c:631-645 | Releasing the served key first and the others after it is releasing them all. |
| `BlockedServer.UnblockQueue` | redis-stable/src/blocked.c:414-428 | The queue of every key is what it was without the client, in the same order. |
| `BlockedServer.BlockForKeysWaiters` | redis-stable/src/blocked.c:370-402 | A client that blocks joins at the end of the queue of each of its keys and of no other. |
| `BlockedServer.ServeQueue` | redis-stable/src/blocked.c:631-670 | Serving takes out the client's node and keeps the others in their places; a client that blocks again comes after them. |
| `BlockedServer.TurnsProgress` | redis-stable/src/blocked.c:322-348 | A round over a key leaves fewer clients blocked, or else fewer keys, or else makes no key ready. |
| `Bio.LaneStepInv` | redis-stable/src/bio.c:178-385 | Mutual exclusion, job order, counters and drain results survive every step of every thread. |
| `BioSafety.StepInv` | redis-stable/src/bio.c:178-439 | So do wake-ups and the delivery of completions, over all workers, pipe and event loop. |
| `BioSafety.InitialInv` | redis-stable/src/bio.c:124-176 | The invariant holds after start. |
| `BioSafety.RunInv` | redis-stable/src/bio.c:178-439 | It holds after every run, under every interleaving, stray wake-ups and a full pipe included. |
| `BioSafety.CountersExact` | redis-stable/src/bio.c:366-374 | Whoever takes a worker's mutex finds the counter of each job type equal to the queued jobs of that type, the running one included. |
| `BioSafety.RunsInOrder` | redis-stable/src/bio.c:276-362 | Each worker runs its jobs once, in submission order; at most the first queued job has run already. |
| `BioSafety.DrainWaits` | redis-stable/src/bio.c:377-385 | When the drain loop ends, every job submitted to the worker has run. |
| `BioSafety.CallbackComesAfter` | redis-stable/src/bio.c:410-439 | A completion callback belongs to a submitted request, and all earlier jobs of that worker have left the queue. |
| `BioSafety.CallbacksInOrder` | redis-stable/src/bio.c:410-439 | Each worker's callbacks come in the order of its requests, each once. |
| `BioSafety.PipeStep` | redis-stable/src/bio.c:348-350 | Every step keeps: a non-empty completion list has a byte in the pipe, a worker about to write one, or the reader between draining and swapping. |
| `BioSafety.AsleepMeansDone` | redis-stable/src/bio.c:276-439 | When every thread sleeps, every job has run and every callback was made: no wake-up is lost. |
| `BioSafety.QueueFinishes` | redis-stable/src/bio.c:276-362 | From every reachable state the threads can empty the queue on their own, within a bound that is given. |
| `BioSafety.TwoDrainersStick` | redis-stable/src/bio.c:361-385 | Counterexample for a second draining thread: a reachable state with a queued job in which nobody awake can move. |
| `Bitpos.FirstUnique` | redis-stable/src/bitops.c:80-165 | There is at most one answer that satisfies the specification of the search. |
| `Bitpos.RedisBitpos` | redis-stable/src/bitops.c:80-165 | For every string, alignment and bit the result is the least position that holds the bit, or -1 or the end if there is none. |
| `Bitpos.ScanWord` | redis-stable/src/bitops.c:147-164 | The scan of the last word finds the first bit and never reaches the panic after it. |
| `Bitpos.ClampRange` | redis-stable/src/bitops.c:908-940 | Negative and too large bounds, in bytes or bits. |
| `Bitpos.SearchRange` | redis-stable/src/bitops.c:955-1004 | Edge masks, the split search and the correction of its results never change the answer. |
| `Bitpos.BitposCommand` | redis-stable/src/bitops.c:867-1005 | BITPOS gives the least position of the clamped range that holds the bit, -1 if there is none, and the first position past the string for a clear bit without an end given. |
| `Popcount.SwarCounts` | redis-stable/src/bitops.c:45-65 | The masks and shifts turn a word into the counts of its four bytes. |
| `Popcount.BlockCounts` | redis-stable/src/bitops.c:33-66 | Seven words gathered by one multiplication give the bits of 28 bytes, without overflow between counters or out of the top byte. |
| `Popcount.RedisPopcount` | redis-stable/src/bitops.c:19-71 | For every string and alignment the result is the number of set bits. |
| `Bitcount.EdgesOut` | redis-stable/src/bitops.c:848-860 | What is subtracted is exactly what lies outside the range, even when both edges share a byte. |
| `Bitcount.BitcountCommand` | redis-stable/src/bitops.c:775-864 | BITCOUNT counts the set bits of the clamped range; two negative bounds in the wrong order count 0, and a start without an end is an error. |
| `Bitfield.UnsignedExact` | redis-stable/src/bitops.c:267-302 | For 1 to 63 unsigned bits overflow is reported if and only if the sum over the integers leaves the range, and the limit is the residue or the nearer bound. |
| `Bitfield.SignedExact` | redis-stable/src/bitops.c:304-357 | The same for 1 to 64 signed bits. |
| `Bitfield.IncrExact` | redis-stable/src/bitops.c:267-357 | Both together. |
| `Bitfield.PropagateIs` | redis-stable/src/bitops.c:337-355 | Sign propagation of the wrapped sum gives the one value in range with the same residue. |
| `Bitfield.SetSaturates` | redis-stable/src/bitops.c:304-335 | SET with saturation on a signed field takes the nearer bound if and only if the distance from the value to the upper bound fits into 64 bits. |
| `Bitfield.SetSaturatesUnsigned` | redis-stable/src/bitops.c:267-302 | On an unsigned field it takes the nearer bound if and only if the value is not negative. |
| `Bitfield.SetReports` | redis-stable/src/bitops.c:1167-1200 | SET reports overflow if and only if the value does not fit its type. |
| `Bitfield.SetExact` | redis-stable/src/bitops.c:1167-1200 | It then wraps or fails as the policy says, always, and saturates to the nearer bound under exactly these two conditions. |
| `Bitfield.SetSaturatesWrongly` | redis-stable/src/bitops.c:312-324 | Counterexample: the least 64-bit integer saturates to 127 in an i8 field. |
| `Bitfield.UnsignedSaturatesWrongly` | redis-stable/src/bitops.c:1195-1200 | Counterexample: -1 saturates to 255 in a u8 field. |
| `Bitfield.FieldOfBits` | redis-stable/src/bitops.c:188-220 | Bits written from a number read back as the number modulo the width. |
| `Bitfield.GetUnsigned` | redis-stable/src/bitops.c:208-220 | The value is the number that the field's bits spell. |
| `Bitfield.GetSigned` | redis-stable/src/bitops.c:222-242 | The value is that number in two's complement of the field's width. |
| `Bitfield.SetUnsigned` | redis-stable/src/bitops.c:188-201 | Exactly the bits of the field are written, with the low bits of the value. |
| `Bitfield.SetField` | redis-stable/src/bitops.c:188-206 | Reading back gives the value, and no bit outside the field changes. |
| `Bitfield.IncrBy` | redis-stable/src/bitops.c:1142-1218 | The stored and returned value is the sum, its residue (WRAP) or the nearer bound (SAT), or nothing is changed (FAIL); no bit outside the field changes. |
| `Bitfield.SetOp` | redis-stable/src/bitops.c:1142-1218 | The old value is returned and the new one stored, resolved as above where it does not fit, or nothing is changed (FAIL); no bit outside the field changes. |
| `Bitop.SettledStays` | redis-stable/src/bitops.c:729-747 | Once a byte has settled, no further source changes it, so the early exits are safe. |
| `Bitop.WordIsBytes` | redis-stable/src/bitops.c:671-721 | A word operation is the byte operation on each of its bytes. |
| `Bitop.OpBlock` | redis-stable/src/bitops.c:671-721 | Four words combined over all sources are the fold of each byte, and nothing else changes. |
| `Bitop.FoldByte` | redis-stable/src/bitops.c:726-749 | The byte loop with its early exits gives the fold over the zero-padded sources. |
| `Bitop.MaxLenIs` | redis-stable/src/bitops.c:644-649 | The result length bounds every source length and is one of them. |
| `Bitop.Bitop` | redis-stable/src/bitops.c:651-750 | The result has the length of the longest source, and each byte is the fold over the zero-padded sources, whichever path computed it. |
| `Glob.StarsMean` | redis-stable/src/util.c:65-93 | A run of stars stands for any run of bytes. |
| `Glob.SearchSound` | redis-stable/src/util.c:57-191 | Whatever the search accepts, the pattern means, for patterns of any depth. |
| `Glob.SearchExact` | redis-stable/src/util.c:57-191 | Up to the nesting limit, counted in the runs of stars the search descends through, it decides the pattern, and its early-exit flag is raised only when no later start can match. |
| `Glob.DeepRefused` | redis-stable/src/util.c:60-61 | A pattern that nests deeper is refused, whatever the string. |
| `Glob.StringMatchExact` | redis-stable/src/util.c:193-197 | For every pattern and string, `stringmatchlen` accepts if and only if the pattern means the string, nests at most a thousand deep, and is empty when the string is. |
| `Glob.StarMissesEmpty` | redis-stable/src/util.c:63-65 | Counterexample: "*" means the empty string too, and does not match it. |
| `Glob.DeepMisses` | redis-stable/src/util.c:60-61 | Counterexample: 1001 times "*a" means 1001 times "a", and is refused. |
| `Glob.ScanClass` | redis-stable/src/util.c:98-159 | The class loop decides membership and finds the end of the class, also of an unfinished one. |
| `Glob.MatchImpl` | redis-stable/src/util.c:57-191 | The loop with its flag computes the search the proofs are about. |
| `ClusterSlot.KeyHashSlot` | redis-stable/src/cluster.h:43-62 | The slot is that of what the first braces enclose, or of the whole key when they enclose nothing or do not close. |
| `ClusterSlot.TagOfPrefix` | redis-stable/src/cluster.h:43-62 | The tag of a key is settled by the prefix that closes it. |
| `ClusterSlot.PlainPrefix` | redis-stable/src/cluster.c:29-54 | Plain bytes of a pattern match only themselves. |
| `ClusterSlot.PatternHashSlot` | redis-stable/src/cluster.c:29-54 | If a slot is returned, every key that the pattern matches has that slot; none is returned if and only if a special character comes before the first tag ends. |
| `ClusterSlot.SlotOfMatching` | redis-stable/src/cluster.c:29-54 | The same for the meaning of the pattern instead of the matcher. |
| `ClusterRouting.NextKey` | redis-stable/src/cluster.c:1020-1084 | One key: the summary of the keys so far stays exact, or the request ends as unbound or cross-slot. |
| `ClusterRouting.GetNodeByQuery` | redis-stable/src/cluster.c:956-1170 | The nested loops and the chain of decisions give the answer that the set of all keys determines: a node only if all keys of all queued commands share one bound slot, CROSSSLOT if and only if the first slot is bound and some key lies in another, and MOVED only to the owner of the slot and never to this node. |
| `ClusterRouting.MigratingRoute` | redis-stable/src/cluster.c:1125-1136 | In a healthy cluster on a migrating slot a request other than MIGRATE is served here if and only if every key looked up is present, gets ASK if and only if keys are looked up and none is, and TRYAGAIN if and only if neither; unless a command publishes or subscribes, all keys are looked up. |
| `ClusterRouting.ServedWithout` | redis-stable/src/cluster.c:1009-1014 | Served with a key missing: if and only if every key looked up is present and some key from the first publishing or subscribing command on is not. |
| `ClusterRouting.PublishHidesKey` | redis-stable/src/cluster.c:1009-1014 | Counterexample: PUBLISH and GET in a transaction on a migrating slot are served with the key missing. |
| `ClusterRouting.ImportingRoute` | redis-stable/src/cluster.c:1138-1151 | On a slot being imported an ASKING request is served unless it names different keys and one of those looked up has not arrived. |
| `Adlist.List.LinkNodeHead` | redis-stable/src/adlist.c:84-95 | The node becomes the first of a well-formed list. |
| `Adlist.List.LinkNodeTail` | redis-stable/src/adlist.c:117-128 | The node becomes the last. |
| `Adlist.List.AddNodeHead` | redis-stable/src/adlist.c:70-79 | The value is put in front. |
| `Adlist.List.AddNodeTail` | redis-stable/src/adlist.c:103-112 | The value is appended. |
| `Adlist.List.InsertNode` | redis-stable/src/adlist.c:130-157 | A fresh node with the value stands before or after the given one, and the others keep their order. |
| `Adlist.List.UnlinkNode` | redis-stable/src/adlist.c:173-187 | The node is out, its pointers are cleared, and the others keep their order. |
| `Adlist.Iter.Next` | redis-stable/src/adlist.c:236-247 | The following node is fixed before the current one is handed out. |
| `Adlist.List.Index` | redis-stable/src/adlist.c:327-339 | The node at the index, from the tail for a negative one, or null out of range. |
| `Adlist.List.RotateTailToHead` | redis-stable/src/adlist.c:342-354 | The last node becomes the first. |
| `Adlist.List.RotateHeadToTail` | redis-stable/src/adlist.c:357-369 | The first node becomes the last. |
| `Adlist.List.Join` | redis-stable/src/adlist.c:373-389 | The nodes of the other list follow, and the other list is empty. |
| `Adlist.Dup` | redis-stable/src/adlist.c:257-291 | A fresh list of the copied values, or null exactly when some value cannot be copied; the original is untouched. |
| `Adlist.DupPlain` | redis-stable/src/adlist.c:278-280 | Without a dup method the copy holds the same values in nodes of its own. |
| `Adlist.VisitAndDelete` | redis-stable/src/adlist.c:222-247 | A traversal that deletes any of the nodes as they are returned visits every original element once, in order, and leaves exactly the others. |
| `Adlist.VisitBackAndDelete` | redis-stable/src/adlist.c:217-247 | The same from tail to head, in reverse order. |

## Left out

- AofCrashSafety.CrashSafety: is about manifests whose lines fit the loader's buffer, and does not follow a server past a restart from a torn log; `ManifestRuns.ReachableRoundTrip` and `AofRecovery.AppendAfterRecovery` say what happens there.
- AofCrashSafety.StepInv: takes a write as durable and `persistAofManifest` as all or nothing; fsync, the temporary manifest file and power loss are not modelled.
- AofFlush.AppendOnlyFile.FlushAppendOnlyFile: covers fsync policies other than "always" and a flush that is not postponed behind a background fsync.
- AofLog.LoadSingleAppendOnlyFile: stands for a file without RDB preamble; timestamp annotations are skipped as comment lines, and the point-in-time recovery option is not modelled.
- AofEmit.RewriteItems: takes each item as the string it is written as; integer encodings are printed by `ll2string` before they get here.
- Sds.AtollDec: numbers that overflow 64 bits are not modelled; sequence numbers and lengths stay below.
- AclSelector.AclSelector.SetSelectorOp: covers the command branches; keys, channels, passwords and the parsing of whole users are separate state.
- BlockedRuns.ReachableAgrees: module clients, the timeout table, WAIT and postponed lists are not modelled; blocking of every other kind is counted. The keys that exist are a set, and what a key holds is given.
- BioSafety.RunInv: is about a server in which only the main thread drains, as the sources have it.
- Bitfield.IncrBy: starts, like `Bitfield.SetOp`, from a string that already reaches the field; growing the string and reading past its end through a padded copy are not modelled.
- Bitop.Bitop: the lookup of keys, the error for NOT with several sources and the storing of the result are not modelled.
- Popcount.RedisPopcount: the 256-entry byte table is a function here.
- ClusterSlot.PatternHashSlot: takes CRC-16 as any function of the bytes.
- ClusterRouting.GetNodeByQuery: ownership, migration state and the presence of keys are given; module redirection flags are one flag.
- Sorted sets, hashes, streams and functions in a rewrite: the same chunking with other arguments.
- The 16-bit variants in crcspeed.c, whose big-endian form the source marks as possibly broken.
- The newsletter application around the vendored server, sockets, the event loop and declarations without code.
- Memory management: allocation failure, reference counts and freeing.
