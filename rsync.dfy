// `run_rsync`: the command-length guard and the report that turns rsync's
// itemised output into log messages.
//
// The outcome of each system call the function makes is an input (SyncEnv);
// writing the exclude file, `setenv("SSHPASS")`, `system()` itself and the
// clean-up `unlink`s are not modelled beyond that.

module Rsync {

  import opened Strings
  import opened Logging
  import opened Config

  /** `char cmd[CMD_BUF]`. */
  const CMD_BUF: int := 16384
  /** `char line[1024]`, the buffer the output is read through. */
  const OUT_LINE_SIZE: int := 1024

  /**
   * The outcomes `run_rsync` sees: whether both mkstemp calls and the
   * fdopen of the exclude file succeed, the names mkstemp made of
   * "/tmp/watchsync_excl_XXXXXX" and "/tmp/watchsync_out_XXXXXX", the
   * value `system()` returns, and what the output file holds when it can be
   * reopened for reading (None when that fdopen fails).
   */
  datatype SyncEnv = SyncEnv(
    tempFilesOk: bool,
    exclOpenOk: bool,
    exclPath: string,
    outPath: string,
    rc: int,
    output: Option<string>)

  /**
   * The command string the snprintf call formats: 69 characters of its own,
   * eight more for `--delete`, and the two temporary names and the four
   * config fields it quotes.
   */
  function Command(c: Config, exclPath: string, outPath: string): (r: string)
    ensures |r| == 69 + (if c.delete then 8 else 0) + |exclPath| + |outPath|
      + |c.localRoot| + |c.remoteUser| + |c.remoteHost| + |c.remoteRoot|
    ensures "sshpass -e rsync -az --itemize-changes " <= r
  {
    "sshpass -e rsync -az --itemize-changes " + (if c.delete then "--delete" else "") + " "
      + "--exclude-from=" + exclPath + " " + c.localRoot + "/ "
      + c.remoteUser + "@" + c.remoteHost + ":" + c.remoteRoot + "/ > " + outPath + " 2>&1"
  }

  /** `n >= 0 && n < sizeof(cmd)`: the whole command fits, with its NUL. */
  predicate Fits(cmd: string) {
    |cmd| < CMD_BUF
  }

  /** The `mkstemp` templates; the names it makes have their lengths (26 and 25). */
  const EXCL_TEMPLATE: string := "/tmp/watchsync_excl_XXXXXX"
  const OUT_TEMPLATE: string := "/tmp/watchsync_out_XXXXXX"

  /**
   * With every field within the buffer `struct config` gives it and names
   * as long as the `mkstemp` templates, the command always fits: the
   * overflow branch is only reached by a `local.root` or a remote field
   * longer than its buffer.
   */
  lemma BoundedFieldsFit(c: Config, exclPath: string, outPath: string)
    requires |exclPath| == |EXCL_TEMPLATE| && |outPath| == |OUT_TEMPLATE|
    requires |c.localRoot| < PATH_MAX && |c.remoteRoot| < PATH_MAX
    requires |c.remoteUser| < USER_SIZE && |c.remoteHost| < HOST_SIZE
    ensures Fits(Command(c, exclPath, outPath))
    ensures |Command(c, exclPath, outPath)| <= 8636
  {
  }

  /** What `trim(line)` leaves of one buffer fgets filled. */
  function Cleaned(line: string): string {
    Trimmed(UntilNul(line))
  }

  /** The nonempty trimmed output lines, in order. */
  function ChangeLines(lines: seq<string>): seq<string>
    decreases |lines|
  {
    if lines == [] then []
    else
      var t := Cleaned(lines[|lines| - 1]);
      ChangeLines(lines[..|lines| - 1]) + if t != [] then [t] else []
  }

  /** One RsyncLine entry per text, in order. */
  function LineEntries(job: string, texts: seq<string>): (r: seq<LogEntry>)
    ensures |r| == |texts|
    decreases |texts|
  {
    if texts == [] then [] else LineEntries(job, texts[..|texts| - 1]) + [RsyncLine(job, texts[|texts| - 1])]
  }

  lemma {:induction false} LineEntriesAt(job: string, texts: seq<string>, i: nat)
    requires i < |texts|
    ensures LineEntries(job, texts)[i] == RsyncLine(job, texts[i])
    decreases |texts|
  {
    if i < |texts| - 1 {
      LineEntriesAt(job, texts[..|texts| - 1], i);
    }
  }

  /** The closing marker: OK for exit status 0, ERROR with the status otherwise. */
  function EndMarker(job: string, rc: int): LogEntry {
    if rc == 0 then RsyncOk(job) else RsyncError(job, rc)
  }

  /**
   * The report: nothing when rsync printed no nonempty line; otherwise the
   * START marker, every nonempty trimmed line, and the closing marker.
   */
  function Report(job: string, lines: seq<string>, rc: int): seq<LogEntry> {
    var changes := ChangeLines(lines);
    if changes == [] then [] else [RsyncStart(job)] + LineEntries(job, changes) + [EndMarker(job, rc)]
  }

  predicate IsMarker(e: LogEntry) {
    e.RsyncStart? || e.RsyncOk? || e.RsyncError?
  }

  /**
   * The report read through the `changes` flag: START appears once, right
   * before the first nonempty line, and only when there is one; the lines
   * follow in order; the last entry is OK exactly when rc is 0 and ERROR
   * otherwise; no other entry is a marker, and with no nonempty line the
   * report is empty.
   */
  lemma ReportShape(job: string, lines: seq<string>, rc: int)
    ensures var r := Report(job, lines, rc);
      var changes := ChangeLines(lines);
      && (changes == [] <==> r == [])
      && (changes != [] ==>
          && |r| == |changes| + 2
          && r[0] == RsyncStart(job)
          && r[1] == RsyncLine(job, changes[0])
          && (forall i :: 0 < i < |r| - 1 ==> r[i] == RsyncLine(job, changes[i - 1]))
          && (r[|r| - 1].RsyncOk? <==> rc == 0)
          && (r[|r| - 1].RsyncError? <==> rc != 0)
          && (forall i :: 0 <= i < |r| ==> (IsMarker(r[i]) <==> i == 0 || i == |r| - 1)))
  {
    var changes := ChangeLines(lines);
    if changes != [] {
      var r := Report(job, lines, rc);
      var body := LineEntries(job, changes);
      assert r == [RsyncStart(job)] + body + [EndMarker(job, rc)];
      forall i | 0 < i < |r| - 1 ensures r[i] == RsyncLine(job, changes[i - 1]) {
        LineEntriesAt(job, changes, i - 1);
      }
    }
  }

  /** A line that trims to nothing adds nothing to the report. */
  lemma {:induction false} BlankLinesIgnored(job: string, lines: seq<string>, blank: string, rc: int)
    requires Cleaned(blank) == []
    ensures Report(job, lines + [blank], rc) == Report(job, lines, rc)
  {
    assert (lines + [blank])[..|lines|] == lines;
    assert (lines + [blank])[|lines|] == blank;
    assert ChangeLines(lines + [blank]) == ChangeLines(lines);
  }

  /**
   * The read loop: trim each line fgets returns and log the nonempty ones,
   * logging START before the first; after the loop, the closing marker if
   * anything was logged.
   */
  method LogReport(job: string, lines: seq<string>, rc: int) returns (log: seq<LogEntry>)
    ensures log == Report(job, lines, rc)
  {
    var changes := false;
    log := [];
    ghost var texts: seq<string> := [];
    var i := 0;
    assert lines[..0] == [];
    while i < |lines|
      invariant i <= |lines|
      invariant texts == ChangeLines(lines[..i])
      invariant changes <==> texts != []
      invariant log == Logged(job, texts)
    {
      var line := Cleaned(lines[i]);
      ChangeLinesStep(lines, i);
      if line != [] {
        LoggedStep(job, texts, line);
        if !changes {
          log := log + [RsyncStart(job)];
          changes := true;
        }
        log := log + [RsyncLine(job, line)];
        texts := texts + [line];
      }
      assert texts == ChangeLines(lines[..i + 1]);
      i := i + 1;
    }
    assert lines[..i] == lines;
    if changes {
      log := log + [EndMarker(job, rc)];
    }
  }

  /** What the read loop has logged once the nonempty lines `texts` were seen. */
  function Logged(job: string, texts: seq<string>): seq<LogEntry> {
    if texts == [] then [] else [RsyncStart(job)] + LineEntries(job, texts)
  }

  lemma LoggedStep(job: string, texts: seq<string>, t: string)
    ensures Logged(job, texts + [t]) ==
      (if texts == [] then [RsyncStart(job)] else Logged(job, texts)) + [RsyncLine(job, t)]
  {
    LineEntriesStep(job, texts, t);
    if texts == [] {
      assert LineEntries(job, [t]) == [RsyncLine(job, t)] by {
        assert [t][..0] == [];
      }
    }
  }

  lemma ChangeLinesStep(lines: seq<string>, i: nat)
    requires i < |lines|
    ensures var t := Cleaned(lines[i]);
      ChangeLines(lines[..i + 1]) == ChangeLines(lines[..i]) + if t != [] then [t] else []
  {
    assert lines[..i + 1][..i] == lines[..i];
  }

  lemma LineEntriesStep(job: string, texts: seq<string>, t: string)
    ensures LineEntries(job, texts + [t]) == LineEntries(job, texts) + [RsyncLine(job, t)]
  {
    assert (texts + [t])[..|texts|] == texts;
  }

  /** Whether `run_rsync` gets as far as `system(cmd)`. */
  predicate Runs(c: Config, env: SyncEnv) {
    env.tempFilesOk && env.exclOpenOk && Fits(Command(c, env.exclPath, env.outPath))
  }

  /** Everything `run_rsync` logs. */
  function SyncLog(c: Config, env: SyncEnv): seq<LogEntry> {
    if !env.tempFilesOk then [MkstempFailed(c.name)]
    else if !env.exclOpenOk then []
    else if !Fits(Command(c, env.exclPath, env.outPath)) then [CommandOverflow(c.name)]
    else match env.output
      case None => []
      case Some(text) => Report(c.name, FgetsLines(text, OUT_LINE_SIZE), env.rc)
  }

  /**
   * `run_rsync`: after the temp files, the command is formatted and run
   * only when it fits in CMD_BUF; otherwise the overflow is logged and
   * nothing runs. When it ran, the output is read back line by line.
   */
  method RunRsync(c: Config, env: SyncEnv) returns (ran: bool, log: seq<LogEntry>)
    ensures ran <==> Runs(c, env)
    ensures ran ==> Fits(Command(c, env.exclPath, env.outPath))
    ensures log == SyncLog(c, env)
  {
    ran := false;
    if !env.tempFilesOk {
      return false, [MkstempFailed(c.name)];
    }
    if !env.exclOpenOk {
      return false, [];
    }
    var cmd := Command(c, env.exclPath, env.outPath);
    if |cmd| >= CMD_BUF {
      return false, [CommandOverflow(c.name)];
    }
    ran := true;
    match env.output
    case None =>
      log := [];
    case Some(text) =>
      log := LogReport(c.name, FgetsLines(text, OUT_LINE_SIZE), env.rc);
  }

  /** A command too long for the buffer is never run, and the overflow is the only message. */
  lemma OverflowNeverRuns(c: Config, env: SyncEnv)
    requires env.tempFilesOk && env.exclOpenOk
    requires !Fits(Command(c, env.exclPath, env.outPath))
    ensures !Runs(c, env) && SyncLog(c, env) == [CommandOverflow(c.name)]
  {
  }
}
