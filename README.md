# watchsync, modelled in Dafny

watchsync watches local directory trees with inotify and mirrors each one to a
remote host with rsync once the tree has been quiet for a configured delay. It
runs either one job in the foreground or, as a daemon, one forked process per
job read from `/etc/watchsync.d`.

This project models the logic of `src/watchsync.c` that decides what the
program does, with the kernel, the file system, the clock and rsync itself
turned into inputs:

- `strings.dfy` (module `Strings`): `trim` on a NUL-terminated `char` buffer,
  as the three in-place steps the C code takes (skip leading blanks,
  `memmove`, zero trailing blanks from the end), proved against the
  specification function `Trimmed`; the bounded copies done by `strncpy`; and
  how a `while (fgets(...))` loop cuts a stream into lines.
- `logging.dfy` (module `Logging`): the messages the program hands to
  `ws_log`, with their priority and formatted text.
- `config.dfy` (module `Config`): `struct config` as a value, `init_config`,
  and `parse_config_file` as a loop over the file's lines. Each line is trimmed,
  skipped when blank, a comment or without `=`, otherwise split at its first
  `=` and dispatched on the key.
- `roster.dfy` (module `Roster`): the globals `global_cfg`, `jobs[MAX_JOBS]`
  and `job_count` as a class. `load_daemon_configs` fills the roster from the
  regular files of the config directory. Daemon mode of `main` returns 1
  before forking when the roster is empty.
- `watchtree.dfy` (module `WatchTree`): `add_watch_recursive` over an abstract
  directory tree. The inotify instance is a set of watched paths that the walk
  adds to, and the log of `inotify_add_watch`/`opendir` calls is kept in
  order.
- `debounce.dfy` (module `Debounce`): the `pending`/`last_event` state machine
  of `watch_job` as a class with a `Tick` method. `Step`, `Run` and `Flushes`
  are its specification, and the burst and quiet-gap lemmas are proved about
  them. The file also holds the sec/nsec elapsed-time expression.
- `rsync.dfy` (module `Rsync`): `run_rsync`'s guard that refuses a command too
  long for `CMD_BUF`, and the read loop that turns rsync's output into the
  START / line / OK-or-ERROR report.
- `job.dfy` (module `Job`): `watch_job` itself, over a finite sequence of
  ticks. It does the first walk, then for each tick runs the debounce check
  and, on a flush, rsync followed by a rebuild of the watches.

Inputs that stand in for the outside world: `Config.Env` (`realpath`, with
its success and what it wrote into the buffer, if anything, and `atoi`),
`Config.Source` and `Roster.ConfDir` (the permission checks, `fopen`,
`opendir`, `readdir` and the file contents), `WatchTree.Node` (what `lstat`,
`opendir`, `readdir` and `inotify_add_watch` report), `Rsync.SyncEnv` (the
`mkstemp`/`fdopen` outcomes, the temporary names, the value of `system()`,
the output file), and `Job.JobTick` (per loop iteration: whether `read`
returned events, the monotonic clock in milliseconds, the tree as the next
rebuild would find it, and the rsync outcomes).

Three behaviours of the code worth knowing when reading the model:

- Two bursts of events more than `delay_ms` apart merge into one flush when
  no eventless iteration falls between the first burst's deadline and the
  next event, because the expiry is only noticed by a polling iteration that
  sees no events (`Debounce.MergedBursts`). `Debounce.TwoBursts` gives the
  condition under which the bursts get separate flushes.
- The handle `inotify_add_watch` returns is never read, and events are used
  only as "something happened", so the model keeps only the set of watched
  paths.
- `run_rsync` logs a failing `mkstemp` and a command too long for its
  buffer; a failing `fdopen` of the exclude file returns without a message
  (`Rsync.SyncLog`). The overflow needs a field longer than the buffer
  `struct config` gives it: with every field within its buffer the command
  is at most 8636 characters (`Rsync.BoundedFieldsFit`).

## Model

| member | source | states |
|---|---|---|
| Logging.LogEntry.Level | src/watchsync.c:89-433 | the priority each `ws_log` call passes: a job's messages are errors exactly when they report a failure (`mkstemp`, the command overflow, a nonzero rsync status), and only the two reasons for skipping a config file are warnings |
| Logging.LogEntry.Text | src/watchsync.c:89-433 | each `ws_log` format string, word for word, with its arguments substituted (lines 91, 110, 116, 138, 171, 224, 258, 275-286, 323, 427, 433); every message about a job opens with its "[name] " tag |
| Strings.LeadCount | src/watchsync.c:71-73 | the number of leading characters `trim` skips: all of them spaces or tabs, and the next one is neither |
| Strings.KeepCount | src/watchsync.c:76-81 | the length `trim` keeps: everything after it is `\n`, `\r`, space or tab, and the last kept character is none of these |
| Strings.LeadCountUnique | src/watchsync.c:71-73 | the two facts about the skipped prefix determine its length |
| Strings.KeepCountUnique | src/watchsync.c:76-81 | the two facts about the kept length determine it |
| Strings.TrimmedInfix | src/watchsync.c:70-82 | the trimmed string is a contiguous infix starting right after the leading blanks; everything cut off at the end is a trailing blank; a nonempty result neither starts with a space or tab nor ends with `\n`, `\r`, space or tab |
| Strings.TrimmedIdempotent | src/watchsync.c:70-82 | trimming twice gives the same string as trimming once |
| Strings.SkipBlanks | src/watchsync.c:71-73 | the pointer scan stops at exactly the number of leading spaces and tabs |
| Strings.MoveToFront | src/watchsync.c:74 | `memmove` puts the characters from the scan point on at the front of the buffer and leaves the rest of it alone |
| Strings.ZeroTrailing | src/watchsync.c:76-81 | the backward loop NUL-terminates the buffer at exactly the kept length, without touching what it keeps |
| Strings.Trim | src/watchsync.c:70-82 | after `trim` the buffer holds `Trimmed` of the old string followed by NUL |
| Strings.Truncate | src/watchsync.c:141-147 | `strncpy(dst, src, size - 1)` keeps a prefix shorter than the field: the whole value when it fits, exactly `size - 1` characters otherwise |
| Strings.UntilNul | src/watchsync.c:121-122 | the C string the buffer `fgets` filled denotes (here and at lines 271-272) is the prefix before the first NUL, which contains none |
| Strings.LineLength | src/watchsync.c:121 | the first line of a nonempty stream is nonempty and no longer than the stream |
| Strings.LineLengthShape | src/watchsync.c:121 | the first line of a stream runs up to and including its first newline, or to the end |
| Strings.FgetsLinesCover | src/watchsync.c:121 | the pieces `fgets` returns, concatenated, are exactly the stream |
| Strings.FgetsLinesShape | src/watchsync.c:121 | every piece is nonempty and shorter than the buffer; a newline can only end a piece; a piece without one either filled the buffer or ends the stream |
| Config.FirstEq | src/watchsync.c:126 | `strchr` finds an `=` with no `=` before it |
| Config.FirstEqUnique | src/watchsync.c:126 | that position is the only `=` with no `=` before it |
| Config.SplitAtFirstEq | src/watchsync.c:122-134 | a nonempty, non-comment trimmed line splits at its first `=`, and the key and the value are each trimmed |
| Config.SplitSkips | src/watchsync.c:122-128 | a line is skipped exactly when its trimmed form is empty, starts with `#` or has no `=`, and a skipped line leaves the config unchanged |
| Config.DispatchWritesOwnField | src/watchsync.c:136-156 | a recognised key writes its own field and no other; an unrecognised key changes nothing |
| Config.DispatchFieldValue | src/watchsync.c:136-156 | `rsync.delete` is set exactly when the value is "true"; the string fields get the value cut to their buffer size; `local.root` holds what `realpath` wrote into the buffer, whether or not it succeeded, and its old contents when it wrote nothing; the delay is `atoi` of the value; an `exclude` past 128 is dropped |
| Config.LinesStep | src/watchsync.c:121-157 | one more line applies its own effect to the config and appends its own messages to the log |
| Config.ParseConfigFile | src/watchsync.c:108-159 | an insecure or unopenable file leaves the config unchanged and logs why; otherwise the lines are applied in order and their messages logged |
| Config.ExcludeEntry | src/watchsync.c:152-155 | an entry appends its truncated value to the excludes exactly when its key is `exclude` and fewer than 128 are stored |
| Config.ExcludesCapped | src/watchsync.c:152-155 | the exclude list after parsing is the old list followed by the file's excludes, cut at MAX_EXCLUDES (128) |
| Config.ParsedExcludesBounded | src/watchsync.c:152-155 | `exclude_count` never exceeds 128, never shrinks, and earlier entries are untouched |
| Config.LastStringEntryWins | src/watchsync.c:140-147 | each string field holds the truncated value of the last line that sets it, or its earlier value; a file never sets the name |
| Config.LastDeleteEntryWins | src/watchsync.c:148-149 | the last `rsync.delete` line decides the flag: set exactly when its value is "true" |
| Config.LastDelayEntryWins | src/watchsync.c:150-151 | the last `rsync.delay_ms` line decides the delay, through `atoi` |
| Config.LastRootEntryWins | src/watchsync.c:136-139 | the root is what the last `realpath` call that wrote the buffer wrote there, even on failure; a `local.root` line whose call writes nothing (an empty value) keeps the earlier root, possibly the global config's |
| Config.NoRootLineNoWrite | src/watchsync.c:136-139 | a file without a `local.root` line never writes the root |
| Config.InitConfigDefaults | src/watchsync.c:99-102 | a fresh config has a 500 ms delay, no delete flag and empty strings and excludes, and keeps each default, the local root included, unless a line sets that field |
| Roster.EntryPath | src/watchsync.c:184-185 | the path `parse_config_file` is given, and logs, for an entry: "/etc/watchsync.d/" and the name, cut to PATH_MAX - 1 characters |
| Roster.ReadDirShape | src/watchsync.c:179-193 | the readdir loop appends one job per regular entry, in directory order, until MAX_JOBS (64) jobs exist, and never changes the jobs already there |
| Roster.ReadStep | src/watchsync.c:180-192 | one entry adds a job exactly when it is a regular file and a slot is free |
| Roster.DaemonRosterIsReadDir | src/watchsync.c:161-177 | the daemon roster is what the readdir loop builds from the global config, or empty when the directory is insecure or cannot be opened |
| Roster.DaemonRosterShape | src/watchsync.c:179-193 | the roster holds one job for each of the first 64 regular entries, in order, each built from the global config |
| Roster.DaemonRosterEmpty | src/watchsync.c:169-193 | the roster never exceeds 64 jobs, and it is empty exactly when the directory cannot be listed or holds no regular file |
| Roster.JobStartsFromGlobal | src/watchsync.c:187-191 | each job is the global config carrying its entry's name, truncated to the field, and no config file changes that name |
| Roster.ParsedKeepsName | src/watchsync.c:136-156 | parsing a config file never changes the name field |
| Roster.Daemon.constructor | src/watchsync.c:38-40 | the zero-filled statics: the global config and every job slot all zero (a 0 ms delay, not yet `init_config`), and no jobs |
| Roster.Daemon.LoadDaemonConfigs | src/watchsync.c:161-195 | the global config is reset and read from the main file; the roster and log change as `LoadDaemon` says |
| Roster.Daemon.ReadEntry | src/watchsync.c:181-192 | a regular entry takes the next free slot as a copy of the global config with its name and its file applied; other entries change nothing |
| Roster.Daemon.ReadConfigDir | src/watchsync.c:179-194 | the loop over the entries leaves the roster and log that `ReadDir` describes |
| Roster.RunDaemon | src/watchsync.c:421-443 | daemon mode returns 1 and starts no job exactly when the roster is empty; otherwise it returns 0 with one process per roster job, in order |
| WatchTree.Watcher.constructor | src/watchsync.c:318 | a fresh inotify instance watches nothing |
| WatchTree.Watcher.AddWatch | src/watchsync.c:298-300 | `inotify_add_watch` adds the path when the call succeeds and changes nothing when it fails, for a directory or any other file |
| WatchTree.Watcher.OpenDir | src/watchsync.c:301-303 | `opendir` succeeds exactly on an openable directory and adds no watch |
| WatchTree.Watcher.VisitEntry | src/watchsync.c:306-312 | an entry other than `.` and `..` that `lstat` reports as a directory is walked; any other entry adds nothing |
| WatchTree.Watcher.AddWatchRecursive | src/watchsync.c:297-315 | the walk adds exactly `WatchPaths` to the existing watches, removes none, and makes the calls `Calls` lists |
| WatchTree.ChildrenWatchMember | src/watchsync.c:305-313 | a path is watched by the readdir loop exactly when some entry walked into watches it |
| WatchTree.WatchedIffReachable | src/watchsync.c:297-315 | a path is watched exactly when a route through openable directories and entries `lstat` reports as directories (never `.` or `..`, never a link below the root) reaches it and `inotify_add_watch` succeeds there |
| WatchTree.WatchedReachable | src/watchsync.c:297-315 | every watched path is reached by such a route |
| WatchTree.ReachableWatched | src/watchsync.c:297-315 | every path such a route reaches is watched |
| WatchTree.UnopenableDirWatch | src/watchsync.c:298-303 | a directory that cannot be opened still gets its own watch, and none of its children get one |
| WatchTree.SkippedEntriesIgnored | src/watchsync.c:306-312 | adding a `.`, `..`, symbolic-link or other non-directory entry to a directory changes nothing that is watched |
| WatchTree.InsertSkipped | src/watchsync.c:305-313 | the readdir loop over a listing with one skipped entry inserted watches the same as over the original |
| WatchTree.SamePrefix | src/watchsync.c:305-313 | the loop's watches depend only on the entries it has read |
| WatchTree.WatchBeforeOpen | src/watchsync.c:298-301 | every `opendir` of a path comes right after the `inotify_add_watch` of that path, and the walk starts with a watch |
| WatchTree.ChildrenWatchBeforeOpen | src/watchsync.c:305-313 | the calls of the readdir loop keep the same order, starting with a watch |
| WatchTree.OrderedConcat | src/watchsync.c:305-313 | the order is kept when the calls of successive entries follow each other |
| Debounce.Debouncer.constructor | src/watchsync.c:326-327 | the loop starts not pending, with a zero `last_event` |
| Debounce.Debouncer.Tick | src/watchsync.c:330-345 | events set `pending` and reset `last_event` to now; a flush happens exactly when `pending` then holds and `now - last_event >= delay_ms`, and it clears `pending` |
| Debounce.RunAppend | src/watchsync.c:329-347 | running two sequences of ticks in turn is running their concatenation, and their flushes add up |
| Debounce.BurstPending | src/watchsync.c:331-340 | inside a burst nothing flushes, and the state is pending since the latest event |
| Debounce.QuietBeforeDeadline | src/watchsync.c:335-340 | eventless ticks before the deadline change nothing and flush nothing |
| Debounce.QuietWhenIdle | src/watchsync.c:335 | eventless ticks when nothing is pending change nothing and flush nothing |
| Debounce.BurstThenQuiet | src/watchsync.c:329-347 | a burst whose gaps are all shorter than the delay, followed by quiet, gets exactly one flush, at the first tick at least the delay after its last event, and leaves nothing pending |
| Debounce.BurstWithoutExpiry | src/watchsync.c:329-347 | until the deadline of a burst's last event is reached, no flush has happened and the state is pending |
| Debounce.TwoBursts | src/watchsync.c:329-347 | two sub-bursts each get their own flush when a tick of the gap falls at least the delay after the first burst's last event |
| Debounce.MergedBursts | src/watchsync.c:329-346 | events 600 ms apart with a 500 ms delay and a 200 ms cadence merge into one flush at 1200 ms |
| Debounce.SingleEventFlushesOnce | src/watchsync.c:329-346 | one write at 0 ms, 500 ms delay: no flush by 400 ms, one flush at 600 ms, within one polling interval of the deadline |
| Debounce.RepeatedEventsPostponeFlush | src/watchsync.c:329-346 | writes at 0, 300 and 600 ms with a 500 ms delay give one flush, at 1200 ms, not before 1100 ms |
| Debounce.CDiv | src/watchsync.c:339 | C's `/` rounds toward zero: the quotient is bounded by the dividend on the side of zero |
| Debounce.ElapsedMsAsWritten | src/watchsync.c:338-339 | the sec/nsec expression is within one millisecond of the true elapsed time, on either side |
| Debounce.ElapsedMsAsWrittenRoundsUp | src/watchsync.c:338-340 | 499.5 ms after the last event the expression already reports 500 |
| Debounce.ElapsedMsGuard | src/watchsync.c:338-340 | with the difference rounded down, `diff >= delay_ms` holds exactly when `delay_ms` milliseconds have passed |
| Debounce.ElapsedMsOnWholeMs | src/watchsync.c:338-339 | on whole-millisecond readings both expressions give the plain difference of the readings |
| Rsync.LineEntries | src/watchsync.c:278 | one line message per report line |
| Rsync.LineEntriesAt | src/watchsync.c:278 | the i-th line message carries the i-th nonempty trimmed line |
| Rsync.ReportShape | src/watchsync.c:271-287 | START is logged once, right before the first nonempty trimmed line, and only when one exists; then every such line in order; then OK when rc is 0 and ERROR otherwise; no markers at all when there are no nonempty lines |
| Rsync.BlankLinesIgnored | src/watchsync.c:272-273 | an output line that trims to nothing adds nothing to the report |
| Rsync.ChangeLinesStep | src/watchsync.c:271-273 | one more output line adds its trimmed form to the report lines exactly when that form is nonempty |
| Rsync.LineEntriesStep | src/watchsync.c:278 | one more report line adds one line message at the end |
| Rsync.LoggedStep | src/watchsync.c:273-278 | a nonempty line is logged after START when it is the first one, and right after the earlier lines otherwise |
| Rsync.LogReport | src/watchsync.c:267-287 | the read loop with its `changes` flag logs exactly `Report` |
| Rsync.Command | src/watchsync.c:250-255 | the `snprintf` format, word for word: 69 characters of its own, `--delete` when the flag is set, and the temporary exclude name, the local root, the remote user, host and root and the output name, in that order |
| Rsync.BoundedFieldsFit | src/watchsync.c:217-263 | with every field within its buffer and temporary names as long as the `mkstemp` templates (26 and 25 characters), the command is at most 8636 characters and always fits, so only a field longer than its buffer reaches the overflow branch |
| Rsync.RunRsync | src/watchsync.c:216-294 | the command runs exactly when both temporary files can be made, the exclude file can be opened with `fdopen`, and the command fits in CMD_BUF (16384) with its NUL; it logs `SyncLog` |
| Rsync.OverflowNeverRuns | src/watchsync.c:257-263 | a command that does not fit is never run, and the overflow is the only message |
| Job.WatchJob | src/watchsync.c:317-348 | a failing `inotify_init1` ends the job before any watch; otherwise the flushes happen at exactly the ticks `Flushes` picks, the watches are the first walk plus one walk per flush, and the log opens with the Monitoring line followed by each flush's rsync messages |
| Job.Flush | src/watchsync.c:341-343 | a flush logs what `run_rsync` logs and adds the walk of the current tree to the watches |
| Job.PollsPrefix | src/watchsync.c:330-333 | the debounce inputs of a prefix of the ticks are the prefix of the inputs |
| Job.JobRunMatchesSpec | src/watchsync.c:329-347 | the job loop's debounce state and flushes are those of the debounce specification, and its watches are the first walk plus the walks after exactly those flushes |
| Job.JobRunLogStart | src/watchsync.c:323 | the job's log always opens with the Monitoring line |
| Job.FlushWatchesPrefix | src/watchsync.c:329-343 | whether a tick flushes, and what its rebuild watches, does not depend on the ticks after it |
| Job.JobWatchesMember | src/watchsync.c:322-343 | a path is watched exactly when the first walk or the walk after some flush reached it, so a directory made during a quiet period is covered only after the next flush |
| Job.JobWatchesGrow | src/watchsync.c:343 | the rebuild never removes a watch: the watches after a prefix of the ticks are contained in the watches after all of them |
| Job.StableTreeStableWatches | src/watchsync.c:343 | rebuilding an unchanged tree after any number of flushes leaves exactly the watches of the first walk |
| Job.NoFlushNoNewWatch | src/watchsync.c:322-343 | without a flush the watches are those of the first walk, whatever the tree has become |

## Left out

- Kernel and file-system calls (`inotify_init1`, `inotify_add_watch`, `read`,
  `opendir`, `readdir`, `lstat`, `realpath`, `stat` in `check_permissions`,
  `access`) are not executed: their outcomes are inputs (`Node`, `Source`,
  `ConfDir`, `MainConf`, `Env`, `JobTick`). The watch descriptors the kernel
  assigns and the event masks are not modelled.
- `Job.WatchJob`: the loop runs over a finite sequence of ticks instead of
  forever, and both `clock_gettime` calls of one iteration read the same
  millisecond. The contents of inotify events are not modelled: a `read`
  either returned events or did not.
- `WatchTree.Watcher.watched` and `Job.JobWatches` are the paths on which
  `inotify_add_watch` succeeded, not what the kernel still watches: the
  kernel drops the watch of a deleted directory by itself (`IN_IGNORED`), and
  a watch follows its inode across a rename. `Job.JobWatchesGrow` and
  `Job.JobWatchesMember` are about the former.
- Events lost to a full kernel queue while rsync runs are not modelled.
- `WatchTree.Join` does not model the truncation `snprintf` applies to a
  sub-path longer than PATH_MAX.
- `run_rsync` plumbing: writing the exclude file, `setenv("SSHPASS")`,
  `system()`, closing and `unlink`ing the temporary files. Their outcomes are
  inputs (`SyncEnv`). The `n < 0` error return of `snprintf` is not modelled.
- Lengths are counted in characters, where `strncpy` and `snprintf` count
  bytes: the command length in `Rsync.Fits`, the field copies of
  `Strings.Truncate`, and the entry paths of `Roster.EntryPath`. They agree
  for ASCII text.
- `atoi` and `realpath` are parameters (`Config.Env`); the numeric value of a
  delay string is whatever `atoi` gives.
- Integer widths: `delay_ms`, `diff`, `job_count` and `exclude_count` are
  unbounded integers; nothing in the modelled paths overflows for the bounded
  counters, and the delay and clock values are taken as given.
- Process-level behaviour: `daemonize`, the `fork` per job, the `wait` loop and
  `SIGCHLD`. `Roster.RunDaemon` returns the jobs it would start, in order. The
  isolation of jobs in separate processes is not modelled.
- The foreground path of `main` (lines 444-456: a `cli` config, the empty
  `local.root` check, `prompt_password`), `usage`, and the `getopt` options
  are not modelled.
- `die` is not modelled: the "inotify_init1: <error>" message it prints
  before exiting is not in the job's log (`Job.WatchJob` returns an empty
  log when `inotify_init1` fails), and no other `die` message is either.
- The choice between syslog and the console in `ws_log` is not modelled; the
  messages `ws_log` is given are (`Logging`).

## Findings

| source | as written | input that shows it | evidently intended | confidence | as-written member | corrected member |
|---|---|---|---|---|---|---|
| src/watchsync.c:338-340 | the nanosecond difference is divided with C's truncating `/`, so when it is negative the millisecond count rounds up | `last_event` = 0.600000000 s, `now` = 1.099500000 s: 499.5 ms have passed, the expression gives 500, and a 500 ms delay counts as elapsed | the whole milliseconds elapsed, rounded down, so the flush waits the full delay | medium (off by less than 1 ms; not executed) | Debounce.ElapsedMsAsWrittenRoundsUp | Debounce.ElapsedMsGuard |
