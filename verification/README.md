# Verified model of Vex's path, migration, relay, pricing, vault and utility cores

Vex is mostly provider glue, but a handful of its parts carry an algorithm or a protocol of their own. This
project models those parts in Dafny and proves what each is for. Every file is one module.

- **Lexical paths** (`Segments`, `SegmentLaws`, `PosixPaths`, `PosixDirname`, `WindowsPaths`, `DeviceNamespaces`,
  `FlavoursAgree`). The one-pass dot-and-slash loop keeps only the output, the length of its last segment, the last
  separator and a dot counter. It is proved equal to the obvious stack machine: split on separators, skip `""` and
  `.`, pop on `..`, push the rest. What the machine does is then said on texts: a `..` takes one name back.
  Normalisation, join and dirname stand on that, and so does the Windows root parser with its share, drive and
  rooted forms; off the roots the two halves are proved to agree.
- **Configuration directory** (`ConfigDir`, `WindowsJoin`). `JoinWindows` with its collapsing and device rules, and
  the resolver over platform, home and environment.
- **Endpoint planning** (`Endpoint`). Where the bridge dials, as a function of platform, environment, user and a
  directory probe.
- **Migrations** (`VersionSets`, `MigrationRules`, `MigrationListing`, `MigrationProtocol`, `MigrationSafety`,
  `MigrationProgress`, `MigrationReports`). One run as a method on a database, and any number of concurrent runs as
  a transition system with crashes, lost connections, unacknowledged commits and orphaned sessions. Builds may
  carry different files.
- **Handshake and relay** (`Handshake`, `Relay`, `RelayOutcomes`). A bounded line reader over chunks of any size,
  the hand-over of what it read too much, and the relay as interleaved steps: two copiers, the main select, a
  timer, signals.
- **Diagnostics** (`Numerals`, `Utf8Text`, `Utf8Scalars`, `Diagnostic`). The truncation loop whose notice counts
  what it omits.
- **Prices** (`PriceBook`, `PriceAccumulator`, `PriceTheorems`, `PriceMeaning`). A streaming argmax over competing
  slots, against the declarative rule: the earliest of the deepest trusted offers.
- **Secret vault** (`Base64`, `VaultFormat`, `VaultLifecycle`, `VaultRuns`, `VaultAnswers`). The file format with
  its staged checks, and the operations as a refinement of a plain map from names to values over every sequence of
  calls.
- **Utilities**. Exact decimal comparison (`Decimals`), the dotenv writer, reader and loader (`Dotenv`,
  `DotenvLines`, `DotenvTheorems`, `DotenvLoader`, `DotenvEscapes`), the bounded transition log (`TransitionLog`),
  the concurrency limiter (`ConcurrencyLimiter`) and the glob compiler (`GlobPatterns`). `JsText` and `Options` are
  shared.

Code that changes state is a class or a method with a loop, proved against a specification function; what the
source promises is then proved about that function. Strings of the Go sources hold one char per byte, strings of
the TypeScript sources one char per UTF-16 unit. A Dafny char is never a surrogate, so text outside the Basic
Multilingual Plane is not covered.

## What the proofs found

Each of these is a theorem with the exact condition, or a concrete counterexample.

- `JoinPosix` is left-associative except when all inner parts are empty and the rest is absolute
  (`PosixPaths.JoinLeftAssociative`, `PosixPaths.JoinNotAssociative`).
- `normalizeWindows` is a fixed point on absolute values outside the device namespaces. On a single segment it is
  idempotent exactly unless a device name stands in front of the first colon, or of the last character without one:
  `CONx` and `CON:x` alternate with `.\CONx` and `.\CON:x` (`WindowsPaths.SegmentIdempotent`,
  `WindowsPaths.DeviceNamesAlternate`). `\\.\..` loses its root (`WindowsPaths.NamespaceShrinks`).
- A planned socket lies in the directory that was probed, except for overrides whose last name is `.`, `..` or
  missing: the planner takes `/x/..` as a socket in `/x` although it resolves to the root (`Endpoint.UnixPlanSafe`,
  `Endpoint.OverrideEscapes`).
- Two Linux processes that differ only in `XDG_RUNTIME_DIR` may dial different sockets;
  `Endpoint.EnvironmentResidual` says exactly when, and `Endpoint.EnvironmentsDiverge` exhibits two.
- The ledger knows numbers, not files. Two files with one number are never both applied: the first run stops at
  the second file, and the next run reports success although that file never ran
  (`MigrationRules.SharedNumberStops`, `MigrationRules.SecondFileForgotten`). The repository's own
  src/vex-agent/db/migrations holds two files numbered 163 and two numbered 164. Success means that every file
  has run if and only if no two share a number and no version-0 file met an empty ledger
  (`MigrationRules.SuccessMeansDistinct`); after the latter, if it applied anything, the same
  build is refused for a gap (`MigrationRules.RerunAppliesNothing`).
- A run cut off from its session may report a file as failed that was committed
  (`MigrationSafety.LostAcknowledgement`).
- A clean relay outcome means a complete stdout exactly when the stdout writer never reports `io.EOF`
  (`Relay.CompleteExactlyForHonestWriters`).
- A deeper native-quoted pool leaves an address unpriced when nothing prices the native, although a shallower
  stable pool exists (`PriceTheorems.PricedExactly`, `PriceTheorems.DeeperNativeUnprices`).
- A vault write whose contents exceed the 10 MiB cap reports success and leaves a file that every later call
  calls corrupt (`VaultRuns.OversizedWriteShuts`); it is the only way a usable vault stops opening
  (`VaultRuns.FittingRunStaysUsable`). A secret named `__proto__` is never stored
  (`VaultRuns.ProtoNeverStored`).
- A dotenv value reads back exactly when it is not empty and holds no line terminator
  (`DotenvTheorems.ReadsBack`).
- After the dotenv writer stripped a key, the loader still reads an older row for it exactly when some line of the
  old file escapes (`DotenvEscapes.LeftForLoader`), and then its stale value wins
  (`DotenvEscapes.StaleExactlyIfEscaped`). With ordinary line ends that is a row indented with white space other
  than spaces and tabs (`DotenvEscapes.StrippingReachesLoader`). Behind a line separator a line escapes although the
  loader read its row from an unindented line (`DotenvEscapes.UncoveredLineEscapes`), and where a carriage return
  stands alone the order of the keys shows in what is stripped (`DotenvEscapes.OrderOfKeysShows`).
- `inflight` can exceed the limiter's maximum. Waiters woken during a run can bring it over exactly when someone
  is granted a slot while every slot is taken or promised (`ConcurrencyLimiter.LimitBreaksByBarging`), by at most
  the number of such grants (`ConcurrencyLimiter.OvershootIsBarging`).
- `**` in a glob does not cross line terminators, against the module's comment
  (`GlobPatterns.AnyPathUpToLines`).

## Model

| member | source | states |
|---|---|---|
| `Segments.NormalizeSegments` | bridge/internal/configdir/lexical.go:55-124 | the one-pass loop returns the join of the stack that split, skip, pop and push arrive at, for every text, both flags and both separator sets |
| `Segments.CloseSegment` | bridge/internal/configdir/lexical.go:68-107 | one loop body at a separator takes the rendering of a stack to the rendering of the stack after one step, its recorded length included |
| `Segments.TopAfterTrim` | bridge/internal/configdir/lexical.go:75-87 | the length recomputed after a pop is the length of the top segment |
| `Segments.TopIsDotDot` | bridge/internal/configdir/lexical.go:70-74 | the test on the last two output bytes is the test that the top segment is `..` |
| `Segments.StackClean` | bridge/internal/configdir/lexical.go:55-124 | a resolved stack holds real segments, `..` only as a leading run, and none where an escaping `..` is dropped |
| `Segments.StackOfJoin` | bridge/internal/configdir/lexical.go:55-124 | resolving rendered output gives the same stack back |
| `Segments.JoinSplit` | bridge/internal/configdir/lexical.go:55-124 | splitting loses nothing: joining the segments restores the text with canonical separators |
| `SegmentLaws.DotDotTakesOneBack` | bridge/internal/configdir/lexical.go:71-116 | for every text in front, either separator set and both flags: a name goes on top of what stands before it, and `..` behind it takes exactly that name back, whatever follows |
| `SegmentLaws.DotsAndEmptyVanish` | bridge/internal/configdir/lexical.go:71-76 | `.` and an empty segment change nothing wherever they stand |
| `SegmentLaws.RootHasNoParent` | bridge/internal/configdir/lexical.go:76-107 | a `..` at a root is dropped |
| `SegmentLaws.EscapeIsKept` | bridge/internal/configdir/lexical.go:100-107 | in a relative text a `..` with nothing to take back stays in front of whatever the rest resolves to |
| `PosixPaths.NormalizePosix` | bridge/internal/configdir/lexical.go:127-151 | returns the normal form: root, resolved segments, trailing separator |
| `PosixPaths.ReadRender` | bridge/internal/configdir/lexical.go:127-151 | a rendered root, stack and trailing separator are read back exactly |
| `PosixPaths.NameCancels` | bridge/internal/configdir/lexical.go:127-151 | `d/name/../x` and `d/x` have one normal form, for every text d, plain name and text x |
| `PosixPaths.DotCancels` | bridge/internal/configdir/lexical.go:127-151 | `d/./x`, `d//x` and `d/x` have one normal form |
| `PosixPaths.NormalizeIdempotent` | bridge/internal/configdir/lexical.go:127-151 | normalising twice is normalising once |
| `PosixPaths.AbsoluteNormalFormPlain` | bridge/internal/configdir/lexical.go:127-151 | an absolute normal form has no empty, `.` or `..` segment and at most one trailing separator |
| `PosixPaths.JoinPosix` | bridge/internal/configdir/lexical.go:155-173 | joins any number of parts, skipping empty ones, and normalises |
| `PosixPaths.JoinLeftAssociative` | bridge/internal/configdir/lexical.go:155-173 | joining in two steps equals joining at once if and only if not all inner parts are empty before an absolute rest |
| `PosixPaths.JoinNotAssociative` | bridge/internal/configdir/lexical.go:155-173 | the smallest input where it differs |
| `PosixPaths.DirnamePosix` | bridge/internal/configdir/lexical.go:462-489 | the backward scan returns everything before the last separator that follows a non-separator |
| `PosixDirname.DirnameCases` | bridge/internal/configdir/lexical.go:445-489 | the dirname of every text: the directory in front of the last name byte for byte, `//` where that is the root, the root, or the current directory; separators at the end do not count |
| `PosixPaths.DirnameOfJoin` | bridge/internal/configdir/lexical.go:462-489 | the dirname of a plain name joined onto an absolute directory is that directory's normal form without trailing separator |
| `PosixPaths.DirnameContains` | bridge/internal/configdir/lexical.go:462-489 | an absolute value resolves to one plain name below its own dirname if and only if its last name is a plain one |
| `WindowsPaths.UncRoot` | bridge/internal/configdir/lexical.go:193-256 | the share and device scan finds the specified root |
| `WindowsPaths.FindRoot` | bridge/internal/configdir/lexical.go:182-275 | the whole root parser finds device, absoluteness and root end as specified |
| `WindowsPaths.ColonGuard` | bridge/internal/configdir/lexical.go:284-308 | the loop over colons finds a look-alike device part exactly when there is one |
| `WindowsPaths.NormalizeWindows` | bridge/internal/configdir/lexical.go:182-308 | equals the specified root plus resolved tail with its two guards |
| `WindowsPaths.AbsoluteForm` | bridge/internal/configdir/lexical.go:182-308 | an absolute value outside the device namespaces keeps its root and resolves only what is below |
| `WindowsPaths.AbsoluteFixedPoint` | bridge/internal/configdir/lexical.go:182-308 | such a value normalises to a fixed point |
| `WindowsPaths.ShareKept` | bridge/internal/configdir/lexical.go:193-256 | a share is never lost: canonical prefix, then segments none of which is empty, `.` or `..`, and a fixed point |
| `WindowsPaths.SegmentIdempotent` | bridge/internal/configdir/lexical.go:284-308 | on one segment, colons included, normalising twice is normalising once exactly unless the segment is a device name with something behind it; a further colon at the end keeps `.\` in front |
| `WindowsPaths.DeviceNamesAlternate` | bridge/internal/configdir/lexical.go:284-308 | `CONx` and `CON:x` are each the normal form of their own normal form |
| `WindowsPaths.NamespaceShrinks` | bridge/internal/configdir/lexical.go:193-256 | in a device namespace normalising twice can lose the root |
| `DeviceNamespaces.DeviceKept` | bridge/internal/configdir/lexical.go:193-256 | behind `\\.\` or `\\?\` a device name and its colon are kept under `\\?\`, and what follows is resolved below them, never above |
| `DeviceNamespaces.PrefixKept` | bridge/internal/configdir/lexical.go:193-256 | any other value of a device namespace keeps the prefix, and everything behind it is resolved |
| `WindowsPaths.NotReserved` | bridge/internal/configdir/lexical.go:341-357 | no absolute value is mistaken for a reserved device name |
| `FlavoursAgree.RelativeAgrees` | bridge/internal/configdir/lexical.go:182-308 | a relative value without a device comes out as the posix half would have it with backslashes, and with `.\` in front exactly where it would read as a drive, has a segment ending in a colon, or is a device name and one character |
| `FlavoursAgree.DriveRelativeAgrees` | bridge/internal/configdir/lexical.go:252-278 | on a drive without a root what follows the drive comes out as posix would have it |
| `FlavoursAgree.DeviceRelativeAgrees` | bridge/internal/configdir/lexical.go:261-308 | behind a device name and a colon what follows comes out as posix would have it, with `.\` in front |
| `FlavoursAgree.DeviceNames` | bridge/internal/configdir/lexical.go:323-350 | the reserved names are the four devices and the ports COM and LPT with a digit one to nine or a superscript one to three |
| `FlavoursAgree.CaseIgnored` | bridge/internal/configdir/lexical.go:341-350 | whether a name is reserved does not depend on the case of its ASCII letters |
| `ConfigDir.JoinWindows` | bridge/internal/configdir/lexical.go:359-416 | concatenates the non-empty parts, collapses leading separators that start no share, and normalises unless a part names a device |
| `ConfigDir.ContainsReservedDevicePart` | bridge/internal/configdir/lexical.go:419-443 | the loop decides whether some part names a device, the runs of backslashes it skips included |
| `WindowsJoin.PartsScanned` | bridge/internal/configdir/lexical.go:417-443 | what it decides: some stretch between backslashes or ends of the text names a device |
| `WindowsJoin.DeviceNamed` | bridge/internal/configdir/lexical.go:417-429 | a part names a device exactly when a reserved name stands in front of its first colon |
| `WindowsJoin.NoShareMadeUp` | bridge/internal/configdir/lexical.go:379-402 | unless the first part starts a share, no joining of parts starts with two separators or has a share |
| `WindowsJoin.JoinedBelow` | bridge/internal/configdir/lexical.go:359-415 | plain names joined onto an absolute directory stand right below it in normal form, under the same drive or share, unless a part names a device |
| `WindowsJoin.DeviceStopsResolution` | bridge/internal/configdir/lexical.go:404-413 | where a part names a device the text comes out unresolved, with backslashes |
| `ConfigDir.JoinStaysGrounded` | bridge/internal/configdir/lexical.go:359-416 | joining onto an absolute directory outside the device namespaces stays absolute and outside them, whatever the other parts are |
| `ConfigDir.PosixConfigDir` | bridge/internal/configdir/configdir.go:33-62 | the posix directory is the normal form of its base's segments followed by the fixed names |
| `WindowsJoin.WindowsConfigDir` | bridge/internal/configdir/configdir.go:45-51 | the Windows directory is `vex` right below an absolute APPDATA, else `AppData\Roaming\vex` right below home, in normal form |
| `ConfigDir.OverrideDecides` | bridge/internal/configdir/configdir.go:33-43 | on every platform an absolute VEX_CONFIG_DIR is the answer to the letter, and any other is as good as unset |
| `WindowsJoin.AbsoluteValues` | bridge/internal/configdir/configdir.go:85-112 | a Windows value counts as absolute exactly when it starts with a separator, or with a drive letter, a colon and one |
| `ConfigDir.JoinStaysAbsolute` | bridge/internal/configdir/lexical.go:359-416 | joining onto any absolute directory, device namespaces included, stays absolute |
| `ConfigDir.NeverRelative` | bridge/internal/configdir/configdir.go:77-102 | with an absolute home the directory is absolute on every platform, whatever the environment holds |
| `Endpoint.UnixPlanSafe` | bridge/internal/endpoint/endpoint.go:292-432 | every unix plan is at most 103 bytes and its parent is a directory of the user's that no group or other bit opens, or is to be created; what it resolves to is one plain name below that parent for every derived plan, and for an override if and only if its last name is a plain one |
| `Endpoint.DirectoriesInOrder` | bridge/internal/endpoint/endpoint.go:292-347 | a linux process without an override plans in /run/user if that is closed to others, else in an absolute XDG_RUNTIME_DIR that is, else below the temporary directory, which alone is created |
| `Endpoint.PrivateIsClosed` | bridge/internal/endpoint/endpoint.go:423-432 | private means an own directory with every group and other bit clear |
| `Endpoint.OverrideDecides` | bridge/internal/endpoint/endpoint.go:356-421 | an override decides alone: each refusal names something wrong with it, and it is taken to the letter only if nothing is |
| `Endpoint.PipePaths` | bridge/internal/endpoint/endpoint.go:273-289 | a pipe path is one of two prefixes and one non-empty name without separators |
| `Endpoint.ProjectsKeptApart` | bridge/internal/endpoint/endpoint.go:292-347 | two projects of one user never derive the same socket or pipe, and what Windows derives is a valid pipe path |
| `Endpoint.OverrideEscapes` | bridge/internal/endpoint/endpoint.go:356-421 | with a private /x the override `/x/..` is planned in /x and resolves to the root |
| `Endpoint.SystemdRendezvous` | bridge/internal/endpoint/endpoint.go:292-347 | two processes that see the same private /run/user directory and no override plan alike, whatever else they see, and for every 32-bit user both dial exactly the file below it, never refused for length |
| `Endpoint.EnvironmentResidual` | bridge/internal/endpoint/endpoint.go:292-347 | two processes differing only in environment dial the same socket if and only if /run/user is private, or the directories they fall back to have one normal form, or both paths are too long |
| `Endpoint.EnvironmentsDiverge` | bridge/internal/endpoint/endpoint.go:292-347 | with XDG_RUNTIME_DIR set in only one of them the two dial different sockets |
| `MigrationRules.ListingAscends` | src/lib/db/migrate-runner.ts:226-231 | the listing holds exactly the matching names, ascending, each with the number its first three characters print |
| `MigrationRules.VersionIsPrefix` | src/lib/db/migrate-runner.ts:230-230 | the version lies in 0 to 999 and, printed in three digits, is the name's prefix |
| `MigrationListing.MigrationNames` | src/lib/db/migrate-runner.ts:228-228 | a name is taken exactly when it is three digits, an underscore and anything that ends in `.sql` |
| `MigrationListing.ListingIgnoresOrder` | src/lib/db/migrate-runner.ts:226-231 | the listing is in the order of the names, and the order in which the directory yields them does not show |
| `MigrationRules.TextOrderIsVersionOrder` | src/lib/db/migrate-runner.ts:226-231 | sorting the names as text sorts them by version |
| `MigrationRules.Database.ApplyMigration` | src/lib/db/migrate-runner.ts:313-337 | one transaction commits the file's effect and its ledger row together, or changes nothing |
| `MigrationRules.Database.ApplyPending` | src/lib/db/migrate-runner.ts:390-417 | the loop commits a prefix of the pending files, and the outcome names where it stopped |
| `MigrationRules.Database.RunLocked` | src/lib/db/migrate-runner.ts:361-417 | the run under the lock has exactly the effect its outcome reports, and a failure has a failing query, an unreadable file or a recorded number behind it |
| `MigrationRules.Database.RunMigrations` | src/lib/db/migrate-runner.ts:339-454 | the whole run reports its effect, fails only for such a reason, and returns its client to the pool only without the lock |
| `MigrationRules.QuietRunSucceeds` | src/lib/db/migrate-runner.ts:339-417 | where no query fails a run succeeds if and only if the database is on main without gaps, every pending file can be read and no number is pending twice; it is refused exactly off main, or for a gap |
| `MigrationRules.OnlyMainIsMigrated` | src/lib/db/migrate-runner.ts:267-302 | a database with a branch ledger, or with lighter tables but not the one marker row, is never changed, and the refusal names what was found |
| `MigrationRules.SharedNumberStops` | src/lib/db/migrate-runner.ts:313-337 | pending files that share a number are never all applied, and of two files with one number at most one has ever run |
| `MigrationRules.SecondFileForgotten` | src/lib/db/migrate-runner.ts:370-417 | of two files with one number on a fresh database the first run stops at the second, and the next run succeeds without it |
| `MigrationRules.SuccessCoversDirectory` | src/lib/db/migrate-runner.ts:370-417 | after success every file of the directory has run exactly when none has a number recorded for another file and none is a version 0 on an empty ledger |
| `MigrationRules.SuccessMeansDistinct` | src/lib/db/migrate-runner.ts:370-417 | on a database that ran this directory's files only: exactly when no two files share a number and no version-0 file met an empty ledger |
| `MigrationRules.RerunAppliesNothing` | src/lib/db/migrate-runner.ts:370-380 | right after a success the same build has nothing pending, and succeeds again exactly unless the first run passed over a version-0 file and applied something |
| `MigrationProtocol.CommitProgress` | src/lib/db/migrate-runner.ts:390-412 | committing the next pending file keeps a run's ledger a prefix of its plan, with the rest above it |
| `MigrationProtocol.CrashKeeps` | src/lib/db/migrate-runner.ts:418-454 | a crash at any phase, an in-flight commit included, keeps the protocol invariant |
| `MigrationSafety.StepKeeps` | src/lib/db/migrate-runner.ts:339-454 | every step of every process keeps the invariant on ledger, sessions, lock and progress |
| `MigrationSafety.LedgerAlwaysTruthful` | src/lib/db/migrate-runner.ts:313-454 | over every schedule the ledger equals the numbers of the committed files, they ascend strictly, none is undone or repeated |
| `MigrationSafety.OneFileRunsPerNumber` | src/lib/db/migrate-runner.ts:313-417 | once a file has run, no other file of its number ever does, over every schedule of every build |
| `MigrationSafety.MutualExclusion` | src/lib/db/migrate-runner.ts:347-361 | at most one live run is between taking the lock and giving it back |
| `MigrationSafety.PooledClientsHoldNoLock` | src/lib/db/migrate-runner.ts:418-454 | no client in the pool holds the advisory lock, over every schedule |
| `MigrationSafety.LockAlwaysAccounted` | src/lib/db/migrate-runner.ts:418-454 | the lock is free, or held by a live run or by a session about to be closed |
| `MigrationSafety.OwnerIsIsolated` | src/lib/db/migrate-runner.ts:347-361 | while a run owns the lock nobody else's step changes the database or that run |
| `MigrationSafety.RefusedRunChangesNothing` | src/lib/db/migrate-runner.ts:250-302 | a refused run leaves the database as it found it, the missing ledger table included |
| `MigrationSafety.ReportsAreTrue` | src/lib/db/migrate-runner.ts:339-417 | over every schedule what a run with a live session reports is what it did |
| `MigrationSafety.EveryReportHolds` | src/lib/db/migrate-runner.ts:313-417 | over every schedule, for every run, cut off or not: a success names the planned files and all ran, a failure names a planned file and all before it ran |
| `MigrationSafety.LostAcknowledgement` | src/lib/db/migrate-runner.ts:319-336 | a run cut off during its commit reports the file as failed although it ran |
| `MigrationSafety.SuccessfulRunStaysCovered` | src/lib/db/migrate-runner.ts:370-417 | after a run once reported success its files have run and stay so for ever, but for the two kinds a success passes over |
| `MigrationSafety.NeverMistakenForBranchEra` | src/lib/db/migrate-runner.ts:267-302 | a database that never saw branch-era tables passes the branch-era check at every moment |
| `MigrationSafety.BranchEraNeverRefuses` | src/lib/db/migrate-runner.ts:267-302 | no run of a build under the current numbering is refused as branch-era |
| `MigrationReports.FailuresHaveCauses` | src/lib/db/migrate-runner.ts:313-417 | over every schedule no run reports a file as failed without a rollback of its own, and none an error without a refused lock, a failing query or an unreadable file |
| `MigrationProgress.RunLeftAloneSucceeds` | src/lib/db/migrate-runner.ts:339-454 | from any world a connected run that finds the lock free and is left alone commits its whole plan, returns the lock and pools its session |
| `MigrationProgress.SqlLands` | src/lib/db/migrate-runner.ts:313-337 | after a success the tables and marker rows of the pending files are there, the rows in order, and nothing else is new |
| `Handshake.BufReader.ReadByte` | bridge/internal/handshake/handshake.go:242-256 | takes the next byte of the stream, whatever chunk the transport chose |
| `Handshake.BufReader.ReadBoundedLine` | bridge/internal/handshake/handshake.go:242-261 | the line, an early end, or too long, as the stream alone determines; a line leaves exactly the rest |
| `Handshake.BufReader.BufferedRemainder` | bridge/internal/handshake/handshake.go:263-273 | hands over everything fetched beyond the newline and leaves the buffer empty |
| `Handshake.AckAndHandOver` | bridge/internal/handshake/handshake.go:193-273 | line, newline, prefix and what is still on the wire are together the stream, for every chunking |
| `Handshake.ResultsKeptApart` | bridge/internal/handshake/handshake.go:242-261 | a line is what stands before a newline within 4096 bytes; too long, no ack and read error each hold exactly when their own description of the stream does |
| `Relay.StdoutIsPrefix` | bridge/internal/relay/relay.go:152-246 | in every schedule stdout is a prefix of what the host sent |
| `Relay.CleanIsComplete` | bridge/internal/relay/relay.go:152-270 | a clean outcome under an honest writer means stdout holds all of it |
| `Relay.CompleteExactlyForHonestWriters` | bridge/internal/relay/relay.go:258-270 | clean means complete in every schedule if and only if the writer's errors exclude io.EOF |
| `Relay.RefusedByteIsReported` | bridge/internal/relay/relay.go:258-270 | one byte refused by stdout loses that byte and is reported as a failed stdout for each of its typed errors, as a failed socket for an untyped one, as a clean end for io.EOF |
| `RelayOutcomes.OutcomesHaveCauses` | bridge/internal/relay/relay.go:152-270 | over every schedule, whatever is allowed to go wrong: a failed stdout, a failed socket, a signal and a deadline are reported only where their own causes are allowed |
| `RelayOutcomes.FailuresKeptApart` | bridge/internal/relay/relay.go:254-270 | where only writes to the client fail, as the client's, no run blames the socket; where none fails no run blames the client; a signal and a deadline take a signal and the timer |
| `RelayOutcomes.CleanEndsKeptApart` | bridge/internal/relay/relay.go:186-246 | a client's end and a deadline mean that all of stdin was written and its end taken; a peer's end that it was not; a signal before that closes the connection at once |
| `Relay.CloseDiscipline` | bridge/internal/relay/relay.go:152-256 | closed at most once and exactly once when over; the write side closes at most once and only after all of stdin was written |
| `Relay.AbandonedCopierCanReport` | bridge/internal/relay/relay.go:145-200 | an ended copier can always deliver its one report |
| `Relay.DrainEnds` | bridge/internal/relay/relay.go:225-246 | from any draining state and through any steps of the copiers the main step moves at most twice more, and where it cannot move, its timer included, the run has returned and the connection is closed |
| `Relay.PeerEndEndsRun` | bridge/internal/relay/relay.go:152-246 | once the host has nothing more to deliver, every schedule of everyone but the stdin copier has at most nine steps, and where none of them can step, timer and signals aside, the run has returned with the connection closed once |
| `Relay.PeerEndDelivers` | bridge/internal/relay/relay.go:152-246 | without a failure, signal or deadline a run that returned ended cleanly with everything the host sent on stdout |
| `Relay.AckToStdout` | bridge/internal/handshake/handshake.go:193-273 | handshake and relay together: stdout is a prefix of exactly the bytes after the ack's newline |
| `Diagnostic.Diagnose` | bridge/internal/handshake/handshake.go:294-330 | the loop ends with the cleaned message, or with the greatest UTF-8 boundary that fits with its own notice |
| `Diagnostic.BestCutUnique` | bridge/internal/handshake/handshake.go:305-328 | there is only one such cut |
| `Diagnostic.CutNamesWhatItOmits` | bridge/internal/handshake/handshake.go:305-334 | the notice, spelled out, prints the number of bytes left out and the length of the whole, and some text is kept |
| `Diagnostic.LineIsFull` | bridge/internal/handshake/handshake.go:50-61 | a line is cut only if it would exceed 512 bytes whole, and a cut at any later character would exceed them |
| `Diagnostic.DiagnosticIdempotent` | bridge/internal/handshake/handshake.go:294-330 | a diagnostic of a diagnostic is itself |
| `Diagnostic.DiagnosticTidy` | bridge/internal/handshake/handshake.go:294-330 | every diagnostic is clean text within the body budget |
| `Diagnostic.StderrLine` | bridge/internal/handshake/handshake.go:50-61 | the printed line is at most 512 bytes with one newline, at the end |
| `Utf8Text.CleanedIsTidy` | bridge/internal/handshake/handshake.go:294-304 | cleaning yields well-formed printable text without surrounding white space, never longer |
| `Utf8Text.TidyIsClean` | bridge/internal/handshake/handshake.go:294-304 | cleaning tidy text changes nothing |
| `Utf8Scalars.HeadEncodes` | bridge/internal/handshake/handshake.go:294-304 | the encoding of every Unicode scalar value is told apart as one sequence of its length, whatever follows |
| `Utf8Scalars.HeadDecodes` | bridge/internal/handshake/handshake.go:294-304 | and no other bytes are: what is told apart is the encoding of a scalar value |
| `Utf8Scalars.BadIsScalar` | bridge/internal/handshake/handshake.go:295-300 | what becomes a space is exactly the controls below 32, 127 and U+FFFD |
| `Utf8Scalars.SpaceIsScalar` | bridge/internal/handshake/handshake.go:301-301 | what is trimmed is exactly the Unicode white space that is not a control already turned into a space |
| `Utf8Scalars.WellFormedIsBlanked` | bridge/internal/handshake/handshake.go:294-304 | well-formed text keeps every character but those that become a space |
| `Utf8Scalars.InvalidRunIsOneSpace` | bridge/internal/handshake/handshake.go:300-300 | a run of invalid bytes becomes one space |
| `Utf8Scalars.OnlySpacesTrimmed` | bridge/internal/handshake/handshake.go:301-301 | what trimming takes away is white space on either side and nothing else |
| `PriceAccumulator.Accumulator.Offer` | src/tools/dexscreener/best-liquidity-price.ts:313-315 | replaces the key's candidate only by a strictly deeper one and touches no other key |
| `PriceAccumulator.Accumulator.OfferSides` | src/tools/dexscreener/best-liquidity-price.ts:443-492 | each address receives exactly the base and quote offers of the row |
| `PriceAccumulator.Accumulator.OfferNative` | src/tools/dexscreener/best-liquidity-price.ts:415-441 | the two native sources receive exactly the row's offers |
| `PriceAccumulator.Accumulator.AddPair` | src/tools/dexscreener/best-liquidity-price.ts:378-493 | after each row the slots hold the declarative answer on all rows so far |
| `PriceAccumulator.Accumulator.AddPairs` | src/tools/dexscreener/best-liquidity-price.ts:377-494 | a batch leaves the answer on the concatenated rows |
| `PriceAccumulator.Accumulator.BuildPrices` | src/tools/dexscreener/best-liquidity-price.ts:350-374 | the price map gives every address exactly its resolved price and decision |
| `PriceAccumulator.Accumulator.CountTiers` | src/tools/dexscreener/best-liquidity-price.ts:508-519 | the three counts are the sizes of the tier sets and add up to the wanted set |
| `PriceAccumulator.Accumulator.UnpricedReasons` | src/tools/dexscreener/best-liquidity-price.ts:524-541 | exactly the unpriced wanted addresses get a reason |
| `PriceAccumulator.CountAll` | src/tools/dexscreener/best-liquidity-price.ts:508-519 | priced by stable, priced by native and unpriced partition the wanted set |
| `PriceBook.BetterWins` | src/tools/dexscreener/best-liquidity-price.ts:280-283 | keeping the strictly deeper one maintains the earliest of the deepest |
| `PriceBook.WinnerUnique` | src/tools/dexscreener/best-liquidity-price.ts:280-283 | the earliest of the deepest offers is unique |
| `PriceTheorems.BatchingLeavesNoTrace` | src/tools/dexscreener/best-liquidity-price.ts:285-293 | the same rows in any batches leave the same state |
| `PriceTheorems.OrderIrrelevantWithoutTies` | src/tools/dexscreener/best-liquidity-price.ts:280-374 | without ties neither order nor repetition of rows matters |
| `PriceTheorems.IneligibleRowPricesNothing` | src/tools/dexscreener/best-liquidity-price.ts:378-413 | a row of another chain, below the floor or untrusted changes no price wherever it stands |
| `PriceTheorems.PricedExactly` | src/tools/dexscreener/best-liquidity-price.ts:327-374 | over the rows: priced exactly when wanted as the wrapped native and some row prices it, or when the earliest of the deepest offers is in dollars or some row prices the native |
| `PriceTheorems.DeeperNativeUnprices` | src/tools/dexscreener/best-liquidity-price.ts:327-374 | a stable pool that prices a token alone does not do so beside a deeper native pool that nothing prices, in either order |
| `PriceTheorems.DeeperNativeRows` | src/tools/dexscreener/best-liquidity-price.ts:327-374 | two such rows |
| `PriceTheorems.PricedAreWanted` | src/tools/dexscreener/best-liquidity-price.ts:443-492 | only wanted addresses are priced |
| `PriceTheorems.ReasonsAreTrue` | src/tools/dexscreener/best-liquidity-price.ts:524-541 | each unpriced reason says what is true of the rows |
| `PriceTheorems.NativeMultiplesAgree` | src/tools/dexscreener/best-liquidity-price.ts:325-374 | every native multiple uses the number the wrapped native itself is shown at |
| `PriceMeaning.OffersSay` | src/tools/dexscreener/best-liquidity-price.ts:378-492 | the offers of a row in each contest are exactly what its fields say: chain, floor, sides, class and number, the quote's number being what times priceNative gives priceUsd |
| `PriceMeaning.InvertedIs` | src/tools/dexscreener/best-liquidity-price.ts:250-261 | the inverted price is the one number whose product with a positive priceNative is priceUsd |
| `PriceMeaning.NativePoolAlone` | src/tools/dexscreener/best-liquidity-price.ts:325-374 | a native pool alone prices its base at exactly its priceUsd |
| `PriceMeaning.StablePoolAlone` | src/tools/dexscreener/best-liquidity-price.ts:325-374 | in a stable pool alone the base is priced at priceUsd, which is priceNative times the price of the stable |
| `PriceMeaning.NativeShows` | src/tools/dexscreener/best-liquidity-price.ts:350-374 | the wrapped native shows its deepest stable pool, and only without one the deepest implied price |
| `PriceMeaning.AddressShows` | src/tools/dexscreener/best-liquidity-price.ts:325-374 | any other address shows its earliest deepest offer, in dollars or times the native's number, with that row's pool, depth, class and symbol |
| `PriceMeaning.ThinSays` | src/tools/dexscreener/best-liquidity-price.ts:404-413 | a row counts as thin for exactly the wanted ones of its two sides when it is of the chain, trusted and below the floor |
| `PriceMeaning.ForeignCounted` | src/tools/dexscreener/best-liquidity-price.ts:378-386 | the foreign counter is the number of rows not of the chain |
| `Base64.DecodeEncode` | src/lib/local-secret-vault/crypto.ts:79-100 | encoding loses nothing and has the padded shape |
| `Base64.CanonicalIsEncoding` | src/lib/local-secret-vault/crypto.ts:79-90 | accepted text is exactly the encoding of a non-empty byte string, and of only one |
| `Base64.CanonicalIsZeroPadded` | src/lib/local-secret-vault/crypto.ts:79-90 | accepted text is exactly padded text whose unused bits are zero |
| `Base64.AlphabetInOrder` | src/lib/local-secret-vault/crypto.ts:79-100 | the sixty-four symbols are A to Z, a to z, 0 to 9, + and / in this order |
| `Base64.GroupIsOneNumber` | src/lib/local-secret-vault/crypto.ts:79-100 | three bytes and the four symbols they are written as are the same 24-bit number |
| `VaultFormat.PowersOfTwo` | src/lib/local-secret-vault/crypto.ts:167-169 | sharing no bit with the number below means being a power of two |
| `VaultFormat.KdfProfiles` | src/lib/local-secret-vault/crypto.ts:157-193 | exactly four scrypt profiles pass the bounds |
| `VaultFormat.CurrentIsStrongest` | src/lib/local-secret-vault/crypto.ts:19-25 | no accepted profile costs more than the one that is written |
| `VaultFormat.UpgradesGoUp` | src/lib/local-secret-vault/crypto.ts:279-286 | a file with an accepted profile needs the upgrade if and only if some accepted profile costs more |
| `VaultFormat.EnvelopeSpelled` | src/lib/local-secret-vault/crypto.ts:115-144 | the envelope check accepts exactly files that spell out bytes within the bounds, and fails only as corrupt |
| `VaultFormat.EncryptContents` | src/lib/local-secret-vault/crypto.ts:245-277 | writes known secrets merged with the unknown ones under the current parameters, which `VaultFormat.CurrentIsStrongest` shows to be the strongest accepted |
| `VaultFormat.DecryptContents` | src/lib/local-secret-vault/crypto.ts:288-379 | each stage fails with its own code, and the secrets come back split into known and unknown |
| `VaultFormat.SplitSecrets` | src/lib/local-secret-vault/crypto.ts:367-378 | the loop splits the secrets by the registry |
| `VaultFormat.WrittenFileOpens` | src/lib/local-secret-vault/crypto.ts:245-379 | a written file opens exactly when its contents are within the cap and hold no empty value; otherwise it is corrupt |
| `VaultFormat.ContentsSurvive` | src/lib/local-secret-vault/crypto.ts:253-261 | merging and splitting gives the contents back |
| `VaultFormat.InvalidPasswordMeansTag` | src/lib/local-secret-vault/crypto.ts:288-333 | invalid_password means envelope and KDF were in order, the key was derived and the tag failed, and conversely |
| `VaultFormat.UnavailableMeansRuntime` | src/lib/local-secret-vault/crypto.ts:288-379 | unavailable means a runtime failure of an acceptable file, before the tag or after it verified, and conversely |
| `VaultFormat.OuterCodes` | src/lib/local-secret-vault/crypto.ts:216-243 | incompatible is said of exactly the files with an outer version above 1; all else that is no vault file is corrupt |
| `VaultFormat.InnerCodes` | src/lib/local-secret-vault/crypto.ts:345-378 | decrypted contents open exactly under version 1 without empty values, are incompatible exactly above it, and give back every secret but `__proto__` |
| `VaultLifecycle.SecretVault.AtomicWriteJson` | src/lib/local-secret-vault/lifecycle.ts:31-46 | the file is the new one or the old one, and the fault says whether the write completed |
| `VaultLifecycle.SecretVault.VerifySecretVaultPassword` | src/lib/local-secret-vault/lifecycle.ts:86-112 | answers as the plain map would and writes nothing |
| `VaultLifecycle.SecretVault.UnlockSecretVault` | src/lib/local-secret-vault/lifecycle.ts:114-154 | answers the map split in two; where it succeeds without a write failure the file has the strongest accepted parameters; a file that has them is left alone, and a failed rewrite does not show |
| `VaultLifecycle.SecretVault.CreateSecretVault` | src/lib/local-secret-vault/lifecycle.ts:48-60 | an absent vault is created empty, an existing one unlocked |
| `VaultLifecycle.SecretVault.WriteSecretVaultSecrets` | src/lib/local-secret-vault/lifecycle.ts:156-186 | edits the known keys of the plain map and keeps the unknown ones; a wrong password leaves the file alone |
| `VaultLifecycle.SecretVault.WriteSecretVaultExtraSecrets` | src/lib/local-secret-vault/lifecycle.ts:188-218 | edits the unknown keys of the plain map and keeps the known ones; a wrong password leaves the file alone |
| `VaultLifecycle.SecretVault.EditKnown` | src/lib/local-secret-vault/lifecycle.ts:168-173 | the loop over the registry applies exactly the named updates |
| `VaultLifecycle.SecretVault.EditUnknown` | src/lib/local-secret-vault/lifecycle.ts:200-207 | the loop over the updates applies exactly those outside the registry |
| `VaultLifecycle.ViewAnswers` | src/lib/local-secret-vault/crypto.ts:288-379 | the plain view of a file determines every answer to that password, failures included |
| `VaultLifecycle.WrittenView` | src/lib/local-secret-vault/crypto.ts:245-277 | a written file is the plain map it was written from, unless over the cap |
| `VaultRuns.PerformAll` | src/lib/local-secret-vault/lifecycle.ts:48-218 | from any file, through any sequence of calls with any failures, answers and view are those of the plain map's run |
| `VaultRuns.UntouchedKeySurvives` | src/lib/local-secret-vault/lifecycle.ts:156-218 | a key no call writes reads as before, so unknown keys survive known-key writes and upgrades |
| `VaultRuns.LastWriteStands` | src/lib/local-secret-vault/lifecycle.ts:156-218 | the last successful write of a key is what it reads as |
| `VaultRuns.ProtoNeverStored` | src/lib/local-secret-vault/crypto.ts:245-277 | no run of calls stores a secret named `__proto__` |
| `VaultRuns.ShutStaysShut` | src/lib/local-secret-vault/lifecycle.ts:114-130 | under a wrong password or on an unreadable file every call fails and changes nothing |
| `VaultRuns.FittingRunStaysUsable` | src/lib/local-secret-vault/lifecycle.ts:48-218 | while contents fit, every file written is accepted next time and failures are never corrupt, incompatible or invalid_password |
| `VaultRuns.OversizedWriteShuts` | src/lib/local-secret-vault/crypto.ts:136-141 | a write over the cap succeeds and shuts the vault for good |
| `VaultRuns.QuietRunIsPlainMap` | src/lib/local-secret-vault/lifecycle.ts:48-218 | without failures every call returns the map its writes describe |
| `VaultRuns.Perform` | src/lib/local-secret-vault/lifecycle.ts:48-218 | every call is a step of the plain map, and one that returns contents without a failure leaves a file with the strongest accepted parameters |
| `VaultAnswers.OtherKindSurvives` | src/lib/local-secret-vault/lifecycle.ts:156-218 | a run that writes only known secrets leaves every unknown one, and one that writes only unknown ones every known one, whatever names the updates carry |
| `VaultAnswers.UnlockAnswersAsVerify` | src/lib/local-secret-vault/lifecycle.ts:86-154 | unlocking succeeds exactly when verifying does and fails with the same code |
| `VaultAnswers.IoMeansDisk` | src/lib/local-secret-vault/lifecycle.ts:31-218 | io is reported exactly when the file could not be read, or a write the caller depends on could not be stored |
| `VaultAnswers.MissingMeansAbsent` | src/lib/local-secret-vault/lifecycle.ts:86-130 | missing is reported exactly by verify and unlock on an absent vault |
| `VaultAnswers.FileCodes` | src/lib/local-secret-vault/lifecycle.ts:86-218 | corrupt and incompatible are reported exactly for what the file, or its decrypted contents, are |
| `VaultAnswers.EveryFileViewed` | src/lib/local-secret-vault/crypto.ts:216-366 | whatever is on disk, a file that cannot be opened with any password is corrupt or incompatible |
| `VaultAnswers.WrongPassword` | src/lib/local-secret-vault/lifecycle.ts:86-218 | every operation reports a wrong password for exactly the files that were read and derived and whose tag failed |
| `VaultAnswers.UncaughtMeansWrite` | src/lib/local-secret-vault/lifecycle.ts:31-218 | a failure without a code is exactly a failed encryption or directory of a write the caller depends on |
| `Decimals.CompareIsExact` | src/lib/board/spec.ts:441-455 | the comparison is the sign of the exact rational difference |
| `Decimals.CompareIsOrder` | src/lib/board/spec.ts:441-455 | it is a total preorder whose zero means equal value |
| `Decimals.ZoneIsStrict` | src/lib/board/spec.ts:509-525 | a zone passes exactly when both values are decimal text of at most forty characters and the lower one is strictly smaller |
| `Decimals.DecimalForm` | src/lib/board/spec.ts:420-426 | decimal text is digits, or digits, one point and digits |
| `Decimals.PointShifts` | src/lib/board/spec.ts:428-455 | the value of such text times the power of ten of its places is the number all its digits print |
| `Dotenv.DotenvFile.AppendMultiple` | src/utils/dotenv.ts:143-184 | strips every key, trims, appends the non-null lines in order and ends with one newline |
| `Dotenv.DotenvFile.ReadValue` | src/utils/dotenv.ts:4-18 | the value of the first matching line, trimmed and unquoted; empty means absent |
| `Dotenv.QuotingRoundTrip` | src/utils/dotenv.ts:12-15 | the two unescape passes in their order invert the two escape passes |
| `Dotenv.PlainValues` | src/utils/dotenv.ts:10-16 | a value between quotes without escapes loses the quotes and no more; any other is taken as it stands, white space around it aside |
| `Dotenv.AssigningLines` | src/utils/dotenv.ts:160-166 | a line is stripped for a key exactly when it reads spaces and tabs, the key, spaces and tabs, and an equals sign |
| `DotenvLines.StripReads` | src/utils/dotenv.ts:160-167 | stripping removes every line the reader could find for that key and leaves other keys as they were |
| `DotenvLines.StripByLines` | src/utils/dotenv.ts:160-167 | the scan of the stripping expression works line by line, newline conventions included |
| `DotenvLines.TailUnread` | src/utils/dotenv.ts:172-172 | trimming the end of the file changes nothing that is read |
| `JsText.CodePoints` | src/utils/dotenv.ts:45-45 | white space and line terminators are those of ECMA-262, sections 12.2 and 12.3 |
| `DotenvTheorems.ReadsBack` | src/utils/dotenv.ts:116-184 | a written value reads back if and only if it is not empty and holds no line terminator |
| `DotenvTheorems.NullReadsAbsent` | src/utils/dotenv.ts:130-139 | a key deleted with null reads as absent |
| `DotenvTheorems.OthersReadAsBefore` | src/utils/dotenv.ts:143-184 | every key not named reads as before |
| `DotenvTheorems.WritingTwiceIsWritingOnce` | src/utils/dotenv.ts:119-124 | writing the same updates twice gives the same file |
| `DotenvTheorems.WrittenInOrder` | src/utils/dotenv.ts:155-184 | the written text is the stripped and trimmed old text and then one line per value, in the order given |
| `DotenvTheorems.EqualsInKeyShadows` | src/utils/dotenv.ts:9-9 | a key with an equals sign can hide another key, whatever else is written |
| `DotenvLoader.Process.LoadDotenvFile` | src/utils/dotenv.ts:31-62 | the environment after the loop is the fold of the file's rows over the one before |
| `DotenvLoader.RowThatDecides` | src/utils/dotenv.ts:44-61 | with overwrite the last row of a name wins; without, what is defined stays and then the first row wins |
| `DotenvLoader.RowsThatAssign` | src/utils/dotenv.ts:44-56 | a row assigns a name and value exactly when, trimmed, it is the name, an equals sign and a text that unquotes to the value, the name neither empty nor a comment |
| `DotenvLoader.SilentRowsLoadNothing` | src/utils/dotenv.ts:44-52 | blank rows, comments and rows without a name in front of an equals sign leave the environment alone |
| `DotenvLoader.LoadedAfterWriting` | src/utils/dotenv.ts:143-184 | loading a written file with overwrite makes every written value live; without, unless the name is defined or an older row escaped |
| `DotenvEscapes.LeftForLoader` | src/utils/dotenv.ts:155-167 | after stripping any keys the loader still reads some key from an older row if and only if a line of the old file escapes, read off the file line by line |
| `DotenvEscapes.StaleExactlyIfEscaped` | src/utils/dotenv.ts:31-62 | loading a written file without overwrite gives an undefined name the value written, unless a line escaped; then and only then an older row's |
| `DotenvEscapes.StrippingReachesLoader` | src/utils/dotenv.ts:155-167 | with ordinary line ends an older row of a written key is left exactly when one is indented with white space other than spaces and tabs |
| `DotenvEscapes.UncoveredLineEscapes` | src/utils/dotenv.ts:155-167 | behind a line separator a line escapes although its row was read from an unindented line |
| `DotenvEscapes.OrderOfKeysShows` | src/utils/dotenv.ts:160-167 | after a lone carriage return the order in which two keys are stripped changes what is left |
| `TransitionLog.Incidents.Observe` | src/utils/transition-log.ts:28-44 | one observation: the report, and the whole new log with its order |
| `TransitionLog.Incidents.Clear` | src/utils/transition-log.ts:45-49 | clearing reports what was suppressed and forgets only that key |
| `TransitionLog.RunIsOrdered` | src/utils/transition-log.ts:25-44 | in every run the log is within its bound and ordered by recency |
| `TransitionLog.EvictsLeastRecent` | src/utils/transition-log.ts:38-41 | only a new key at a full log evicts, and what goes was observed before everything that stays |
| `TransitionLog.CountsAreConserved` | src/utils/transition-log.ts:28-49 | every suppressed repeat is reported, still held, or was evicted |
| `TransitionLog.RoomyRunsMatch` | src/utils/transition-log.ts:12-16 | while each key returns before maxEntries distinct others the bounded log answers like an unbounded one |
| `TransitionLog.BurstIsReportedOnce` | src/utils/transition-log.ts:28-49 | repeats within the window counted from the report are silent and do not prolong it; the next observation outside it, in another state, or the end is reported with their count |
| `TransitionLog.NewIsReported` | src/utils/transition-log.ts:28-49 | a key not in the log is always reported, with no repeats, and clearing it reports nothing |
| `TransitionLog.LimitsHaveFloors` | src/utils/transition-log.ts:17-23 | the window is never below five minutes and the bound never below one; what is asked for above that is taken |
| `ConcurrencyLimiter.Limiter.Acquire` | src/utils/rateLimit.ts:66-87 | rejected, granted or queued last |
| `ConcurrencyLimiter.Limiter.OnAbort` | src/utils/rateLimit.ts:77-82 | removes exactly the aborted waiter, and only while it is queued |
| `ConcurrencyLimiter.Limiter.Release` | src/utils/rateLimit.ts:91-95 | gives up the slot and wakes the first waiter |
| `ConcurrencyLimiter.StepKeeps` | src/utils/rateLimit.ts:66-95 | every step in every interleaving keeps the invariant |
| `ConcurrencyLimiter.EveryRunIsFair` | src/utils/rateLimit.ts:48-96 | while anyone is queued every slot is committed; waking is first come first served; an aborted waiter is never woken; nobody is lost |
| `ConcurrencyLimiter.SlotsAreConserved` | src/utils/rateLimit.ts:66-95 | in every run inflight counts exactly the slots handed out, to callers and to resuming waiters, and not given back |
| `ConcurrencyLimiter.OvershootIsBarging` | src/utils/rateLimit.ts:66-95 | the excess over the limit is at most the number of slots granted while every slot was taken or promised |
| `ConcurrencyLimiter.WithinMeansNoBarging` | src/utils/rateLimit.ts:66-95 | slots taken or promised stay within the limit at every moment of a run if and only if there was no such grant |
| `ConcurrencyLimiter.LimitBreaksByBarging` | src/utils/rateLimit.ts:66-95 | the waiters woken by some moment of a run can bring inflight over the limit if and only if there was such a grant |
| `ConcurrencyLimiter.BargingBreaksTheLimit` | src/utils/rateLimit.ts:88-94 | one acquire in the gap and two callers hold a limit of one |
| `GlobPatterns.GlobToRegex` | src/utils/minimatch.ts:11-42 | the compiled text is a valid expression that accepts exactly what the glob denotes |
| `GlobPatterns.Minimatch` | src/utils/minimatch.ts:6-9 | matching decides whether the glob denotes the subject |
| `GlobPatterns.CompilePreserves` | src/utils/minimatch.ts:11-42 | reading the text back and matching it preserves the glob's meaning for every subject |
| `GlobPatterns.LiteralMatchesItself` | src/utils/minimatch.ts:11-42 | a pattern without wildcards matches itself only, whatever regular expressions make of its characters |
| `GlobPatterns.DepthIsKept` | src/utils/minimatch.ts:26-32 | without `**` a pattern matches only paths with as many slashes as itself |
| `GlobPatterns.DeepMatch` | src/utils/minimatch.ts:17-24 | a leading `**`, with or without a slash behind it, stands for any text on one line |
| `GlobPatterns.StarStandsForSegment` | src/utils/minimatch.ts:26-27 | a `*` stands for any part of a segment, the empty one included |
| `GlobPatterns.AnyPathUpToLines` | src/utils/minimatch.ts:3-24 | `**` stands for any path exactly on subjects without line terminators |
| `GlobPatterns.SingleStarsAgree` | src/utils/minimatch.ts:26-29 | patterns without `**` are not affected |

## Left out

- WindowsPaths.AbsoluteFixedPoint: covers absolute values outside the device namespaces (`\\?\`, `\\.\`) only, because inside them normalising is not idempotent (`WindowsPaths.NamespaceShrinks`); what comes out there is said by `DeviceNamespaces.DeviceKept` and `DeviceNamespaces.PrefixKept`.
- FlavoursAgree.DeviceRelativeAgrees: assumes something behind the colon that does not start with a separator; a device alone is covered by `WindowsPaths.SegmentIdempotent`.
- FlavoursAgree.RelativeAgrees: assumes at least two characters, because a single one is returned as it is.
- WindowsJoin.WindowsConfigDir: assumes a base outside the device namespaces, with a server and a share where it starts like one, and without a part that names a device; `ConfigDir.NeverRelative` covers every base.
- DotenvEscapes.LeftForLoader: with several keys it covers files whose carriage returns stand before newlines, because elsewhere what is left depends on the order of the keys (`DotenvEscapes.OrderOfKeysShows`); with one key it covers every file.
- DotenvEscapes.StaleExactlyIfEscaped: covers the same files.
- MigrationSafety.ReportsAreTrue: a run cut off from its session is covered by `MigrationSafety.EveryReportHolds` only, because whether the file it names ran is then open (`MigrationSafety.LostAcknowledgement`).
- Endpoint.UnixPlanSafe: assumes an absolute temporary directory, as the host supplies one.
- Endpoint.EnvironmentResidual: assumes an absolute temporary directory likewise.
- Diagnostic.Diagnose: assumes a message shorter than 2^63 bytes, the range of Go's `int`.
- DotenvTheorems.ReadsBack: keys hold no equals sign and no white space, because such a key's line can also begin with another key (`DotenvTheorems.EqualsInKeyShadows`); the values written before it are on one line.
- DotenvTheorems.OthersReadAsBefore: keys as above and all values on one line, because the second line of a value can look like another key.
- DotenvTheorems.WritingTwiceIsWritingOnce: keys as above and all values on one line, because stripping removes only the first line of a value.
- DotenvTheorems.NullReadsAbsent: keys as above and all values on one line.
- VaultRuns.PerformAll: one process uses the file during a call; a write that fails may leave the old file or the new one.
- The Windows pipe and SID code and the ACL probe.
- Upper-casing beyond ASCII in reserved device names: no other character has an upper case that occurs in them.
- SHA-256 and the probe's file-system calls: the endpoint's discriminator is twelve given hex digits, and facts come from a function.
- Postgres itself: sessions, advisory lock and transactions are atomic steps that commit or roll back; a migration file's SQL is its recorded effect, so files with transaction control of their own are not modelled, and time limits show only as a failed lock or query.
- The JSON decoding of the acknowledgement, the handshake deadline and its timer, and the wrapping in `TypedStdout` beyond the error classes it yields.
- Floating point in prices: numbers are exact reals and fields arrive already parsed, so overflow and not-a-number guards vanish; the case folding of chain names is a parameter.
- scrypt, AES-256-GCM and the JSON text of vault contents are parameters of which only the round trip is assumed; the JSON text of the envelope is not spelled out.
- The registry of known secret names is a parameter, so the vault statements hold for every build's registry.
- `appendToDotenvFile` (it passes the value as a replacement pattern) and `removeFromDotenvFile`.
- `TokenBucket`: its rate bound holds only for sequential callers.
- Error-message prose everywhere, schema shapes, HTTP clients, logging, redaction and renderer code.
