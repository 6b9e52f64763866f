// Daemon mode's job roster: `load_daemon_configs` fills the global `jobs`
// array from /etc/watchsync.conf and the regular files of /etc/watchsync.d,
// and `main` refuses to go on, before any fork, when no job was loaded.

module Roster {
  import opened Strings
  import opened Logging
  import opened Config

  const MAX_JOBS: nat := 64
  const MAIN_CONF: string := "/etc/watchsync.conf"
  const CONF_DIR: string := "/etc/watchsync.d"

  /** The `d_type` readdir reports for an entry. */
  datatype FileType = Regular | Directory | SymbolicLink | OtherType | UnknownType

  /** One readdir entry of the config directory, with what reading it as a config file gives. */
  datatype ConfEntry = ConfEntry(name: string, dtype: FileType, source: Source)

  /** `access(MAIN_CONF, F_OK)` fails, or the file is there. */
  datatype MainConf = Absent | Present(source: Source)

  /** The permission check of the config directory, `opendir`, and the entries readdir lists. */
  datatype ConfDir =
    | DirStatFailed
    | DirTooOpen
    | DirUnopenable
    | Listing(entries: seq<ConfEntry>)

  /**
   * The `snprintf(path, PATH_MAX, "%s/%s", conf_dir, name)` of an entry:
   * the directory, a slash and the name, cut to PATH_MAX - 1 characters.
   */
  function EntryPath(name: string): (r: string)
    ensures |CONF_DIR + "/" + name| < PATH_MAX ==> r == CONF_DIR + "/" + name
    ensures |CONF_DIR + "/" + name| >= PATH_MAX ==> r == (CONF_DIR + "/" + name)[..PATH_MAX - 1]
  {
    Truncate(CONF_DIR + "/" + name, PATH_MAX)
  }

  /** `global_cfg` once the main config file, if present, has been parsed. */
  function LoadedGlobal(main: MainConf, env: Env): Config {
    match main
    case Absent => InitConfig()
    case Present(src) => Parsed(InitConfig(), src, env)
  }

  function GlobalLog(main: MainConf, env: Env): seq<LogEntry> {
    match main
    case Absent => []
    case Present(src) => ParseLog(MAIN_CONF, src, env)
  }

  /** The job a regular entry becomes: a copy of the global config, its name, then its own file. */
  function JobFor(global: Config, e: ConfEntry, env: Env): Config {
    Parsed(global.(name := Truncate(e.name, NAME_SIZE)), e.source, env)
  }

  /** The jobs loaded so far and the messages logged so far. */
  datatype Loaded = Loaded(jobs: seq<Config>, log: seq<LogEntry>)

  /** The readdir loop of `load_daemon_configs`, from the state `start`. */
  function ReadDir(start: Loaded, global: Config, entries: seq<ConfEntry>, env: Env): Loaded
    decreases |entries|
  {
    if entries == [] then start
    else
      var prev := ReadDir(start, global, entries[..|entries| - 1], env);
      var e := entries[|entries| - 1];
      if e.dtype == Regular && |prev.jobs| < MAX_JOBS then
        Loaded(prev.jobs + [JobFor(global, e, env)], prev.log + ParseLog(EntryPath(e.name), e.source, env))
      else prev
  }

  /** The entries readdir reports as regular files, in order. */
  function Regulars(entries: seq<ConfEntry>): seq<ConfEntry>
    decreases |entries|
  {
    if entries == [] then []
    else
      var rest := Regulars(entries[..|entries| - 1]);
      if entries[|entries| - 1].dtype == Regular then rest + [entries[|entries| - 1]] else rest
  }

  function Min(a: nat, b: nat): nat {
    if a < b then a else b
  }

  /** The first `n` elements of `s`, or all of them. */
  function Take<T>(s: seq<T>, n: nat): seq<T> {
    if |s| <= n then s else s[..n]
  }

  /** The jobs the entries `es` become, in order. */
  function JobsFor(global: Config, es: seq<ConfEntry>, env: Env): seq<Config> {
    seq(|es|, i requires 0 <= i < |es| => JobFor(global, es[i], env))
  }

  /**
   * The roster is the earlier jobs followed by one job per regular entry, in
   * directory order, until MAX_JOBS jobs exist; each new job is the global
   * config under the entry's name with the entry's file applied.
   */
  lemma {:induction false} ReadDirShape(start: Loaded, global: Config, entries: seq<ConfEntry>, env: Env)
    requires |start.jobs| <= MAX_JOBS
    ensures ReadDir(start, global, entries, env).jobs
      == start.jobs + JobsFor(global, Take(Regulars(entries), MAX_JOBS - |start.jobs|), env)
    decreases |entries|
  {
    var room := MAX_JOBS - |start.jobs|;
    if entries == [] {
      assert start.jobs + JobsFor(global, [], env) == start.jobs;
    } else {
      var init := entries[..|entries| - 1];
      var e := entries[|entries| - 1];
      ReadDirShape(start, global, init, env);
      var prev := ReadDir(start, global, init, env).jobs;
      var regs := Regulars(init);
      assert |prev| == |start.jobs| + |Take(regs, room)|;
      if e.dtype == Regular {
        assert Regulars(entries) == regs + [e];
        if |prev| < MAX_JOBS {
          assert Take(regs + [e], room) == Take(regs, room) + [e];
          assert JobsFor(global, Take(regs, room) + [e], env)
            == JobsFor(global, Take(regs, room), env) + [JobFor(global, e, env)];
        } else {
          assert Take(regs + [e], room) == Take(regs, room);
        }
      }
    }
  }

  /** One more entry seen by the readdir loop. */
  lemma ReadStep(start: Loaded, global: Config, entries: seq<ConfEntry>, i: nat, env: Env)
    requires i < |entries|
    ensures var e := entries[i];
      var prev := ReadDir(start, global, entries[..i], env);
      ReadDir(start, global, entries[..i + 1], env) ==
        if e.dtype == Regular && |prev.jobs| < MAX_JOBS then
          Loaded(prev.jobs + [JobFor(global, e, env)], prev.log + ParseLog(EntryPath(e.name), e.source, env))
        else prev
  {
    assert entries[..i + 1][..i] == entries[..i];
  }

  /** `load_daemon_configs` from the state `start`. */
  function LoadDaemon(start: Loaded, main: MainConf, dir: ConfDir, env: Env): Loaded {
    var s := Loaded(start.jobs, start.log + GlobalLog(main, env));
    match dir
    case DirStatFailed => Loaded(s.jobs, s.log + [InsecureConfigDir(CONF_DIR)])
    case DirTooOpen => Loaded(s.jobs, s.log + [PermissionsTooOpen(CONF_DIR), InsecureConfigDir(CONF_DIR)])
    case DirUnopenable => s
    case Listing(entries) => ReadDir(s, LoadedGlobal(main, env), entries, env)
  }

  /** The roster daemon mode starts from. */
  function DaemonRoster(main: MainConf, dir: ConfDir, env: Env): seq<Config> {
    LoadDaemon(Loaded([], []), main, dir, env).jobs
  }

  /** Daemon mode's roster is what the readdir loop builds from global_cfg, or nothing. */
  lemma DaemonRosterIsReadDir(main: MainConf, dir: ConfDir, env: Env)
    ensures DaemonRoster(main, dir, env) ==
      if dir.Listing? then ReadDir(Loaded([], GlobalLog(main, env)), LoadedGlobal(main, env), dir.entries, env).jobs
      else []
  {
    assert [] + GlobalLog(main, env) == GlobalLog(main, env);
  }

  /**
   * The daemon roster holds one job for each of the first MAX_JOBS regular
   * entries of the config directory, in directory order, and no others.
   */
  lemma DaemonRosterShape(main: MainConf, dir: ConfDir, env: Env)
    requires dir.Listing?
    ensures var roster := DaemonRoster(main, dir, env);
      && |roster| == Min(MAX_JOBS, |Regulars(dir.entries)|)
      && forall i :: 0 <= i < |roster| ==>
           roster[i] == JobFor(LoadedGlobal(main, env), Regulars(dir.entries)[i], env)
  {
    DaemonRosterIsReadDir(main, dir, env);
    ReadDirShape(Loaded([], GlobalLog(main, env)), LoadedGlobal(main, env), dir.entries, env);
  }

  /**
   * The roster never exceeds MAX_JOBS, and it is empty exactly when the
   * config directory could not be listed or holds no regular file.
   */
  lemma DaemonRosterEmpty(main: MainConf, dir: ConfDir, env: Env)
    ensures var roster := DaemonRoster(main, dir, env);
      && |roster| <= MAX_JOBS
      && (roster == [] <==> !dir.Listing? || Regulars(dir.entries) == [])
  {
    DaemonRosterIsReadDir(main, dir, env);
    if dir.Listing? {
      DaemonRosterShape(main, dir, env);
    }
  }

  /**
   * Each job starts as a copy of the global config carrying its entry's
   * name, which no config file can change; a job whose file fails the
   * permission check or cannot be opened is exactly that copy.
   */
  lemma JobStartsFromGlobal(global: Config, e: ConfEntry, env: Env)
    ensures JobFor(global, e, env).name == Truncate(e.name, NAME_SIZE)
    ensures !e.source.Readable? ==> JobFor(global, e, env) == global.(name := Truncate(e.name, NAME_SIZE))
  {
    ParsedKeepsName(global.(name := Truncate(e.name, NAME_SIZE)), e.source, env);
  }

  /** A config file never sets the name: parsing keeps the one the struct had. */
  lemma ParsedKeepsName(c: Config, src: Source, env: Env)
    ensures Parsed(c, src, env).name == c.name
  {
    if src.Readable? {
      LastStringEntryWins(c, SplitLines(FgetsLines(src.text, LINE_SIZE)), env);
    }
  }

  /** The globals `global_cfg`, `jobs[MAX_JOBS]` and `job_count`, and the messages logged. */
  class Daemon {
    var globalCfg: Config
    const jobs: array<Config>
    var jobCount: nat
    var log: seq<LogEntry>

    ghost predicate Valid()
      reads this
    {
      jobs.Length == MAX_JOBS && jobCount <= MAX_JOBS
    }

    /** The jobs loaded so far. */
    ghost function Roster(): seq<Config>
      reads this, jobs
      requires Valid()
    {
      jobs[..jobCount]
    }

    constructor ()
      ensures Valid() && fresh(jobs)
      ensures globalCfg == ZeroConfig() && jobCount == 0 && log == []
      ensures forall i :: 0 <= i < jobs.Length ==> jobs[i] == ZeroConfig()
    {
      globalCfg := ZeroConfig();
      jobs := new Config[MAX_JOBS](_ => ZeroConfig());
      jobCount := 0;
      log := [];
    }

    /**
     * `load_daemon_configs`: the global config is reset and read from the
     * main file; an insecure or unlistable directory adds no job; otherwise
     * every regular entry takes the next free slot while there is one.
     */
    method LoadDaemonConfigs(main: MainConf, dir: ConfDir, env: Env)
      requires Valid()
      modifies this, jobs
      ensures Valid()
      ensures globalCfg == LoadedGlobal(main, env)
      ensures Loaded(Roster(), log) == LoadDaemon(Loaded(old(Roster()), old(log)), main, dir, env)
    {
      globalCfg := InitConfig();
      if main.Present? {
        var g, msgs := ParseConfigFile(MAIN_CONF, globalCfg, main.source, env);
        globalCfg, log := g, log + msgs;
      }
      assert log == old(log) + GlobalLog(main, env);
      match dir {
        case DirStatFailed =>
          log := log + [InsecureConfigDir(CONF_DIR)];
        case DirTooOpen =>
          log := log + [PermissionsTooOpen(CONF_DIR), InsecureConfigDir(CONF_DIR)];
        case DirUnopenable =>
        case Listing(entries) =>
          ReadConfigDir(entries, env);
      }
    }

    /** One pass of the readdir loop: a regular entry takes the next free slot, if any. */
    method ReadEntry(e: ConfEntry, env: Env)
      requires Valid()
      modifies this`jobCount, this`log, jobs
      ensures Valid()
      ensures Loaded(Roster(), log) ==
        if e.dtype == Regular && old(jobCount) < MAX_JOBS then
          Loaded(old(Roster()) + [JobFor(globalCfg, e, env)], old(log) + ParseLog(EntryPath(e.name), e.source, env))
        else Loaded(old(Roster()), old(log))
    {
      if e.dtype == Regular && jobCount < MAX_JOBS {
        var c, msgs := ParseConfigFile(EntryPath(e.name), globalCfg.(name := Truncate(e.name, NAME_SIZE)), e.source, env);
        jobs[jobCount] := c;
        assert jobs[..jobCount + 1] == jobs[..jobCount] + [c];
        jobCount := jobCount + 1;
        log := log + msgs;
      }
    }

    /** The readdir loop of `load_daemon_configs`. */
    method ReadConfigDir(entries: seq<ConfEntry>, env: Env)
      requires Valid()
      modifies this`jobCount, this`log, jobs
      ensures Valid()
      ensures Loaded(Roster(), log) == ReadDir(Loaded(old(Roster()), old(log)), globalCfg, entries, env)
    {
      ghost var start := Loaded(jobs[..jobCount], log);
      var i := 0;
      while i < |entries|
        invariant i <= |entries|
        invariant Valid()
        invariant Loaded(jobs[..jobCount], log) == ReadDir(start, globalCfg, entries[..i], env)
      {
        ReadStep(start, globalCfg, entries, i, env);
        ReadEntry(entries[i], env);
        i := i + 1;
      }
      assert entries[..i] == entries;
    }
  }

  /**
   * Daemon mode of `main`: load the roster; with no job it logs an error
   * and returns 1 before any process is forked; otherwise it forks one job
   * process per roster entry, in roster order, and returns 0 once all of
   * them have been reaped. `started` lists the jobs given a process.
   */
  method RunDaemon(main: MainConf, dir: ConfDir, env: Env)
    returns (rc: int, started: seq<Config>, log: seq<LogEntry>)
    ensures var roster := DaemonRoster(main, dir, env);
      && started == roster
      && (rc == 1 <==> roster == []) && (rc == 0 <==> roster != [])
      && log == LoadDaemon(Loaded([], []), main, dir, env).log
                + (if roster == [] then [NoJobs] else [DaemonStarted(|roster|)])
  {
    var d := new Daemon();
    assert d.Roster() == [];
    d.LoadDaemonConfigs(main, dir, env);
    assert d.log == LoadDaemon(Loaded([], []), main, dir, env).log;
    assert d.Roster() == DaemonRoster(main, dir, env);
    assert d.jobCount == |DaemonRoster(main, dir, env)|;
    if d.jobCount == 0 {
      return 1, [], d.log + [NoJobs];
    }
    log := d.log + [DaemonStarted(d.jobCount)];
    started := [];
    for i := 0 to d.jobCount
      invariant started == d.jobs[..i]
    {
      started := started + [d.jobs[i]];
    }
    assert d.jobs[..d.jobCount] == d.Roster();
    rc := 0;
  }
}
