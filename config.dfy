// `struct config` and the line-by-line parser of watchsync's `key = value`
// configuration files (`init_config`, `parse_config_file`).
//
// The C struct is a plain value that the program copies with memcpy, so it is
// a datatype here; `parse_config_file`, which overwrites fields of the struct
// it is given, is a method whose out-parameter is the struct afterwards.

module Config {
  import opened Strings
  import opened Logging

  const MAX_EXCLUDES: nat := 128
  /** PATH_MAX from Linux's <limits.h>. */
  const PATH_MAX: nat := 4096
  const NAME_SIZE: nat := 64
  const USER_SIZE: nat := 64
  const HOST_SIZE: nat := 256
  const PASSWORD_SIZE: nat := 256
  /** The `char line[4096]` buffer handed to fgets. */
  const LINE_SIZE: nat := 4096
  const DEFAULT_DELAY_MS: int := 500

  datatype Config = Config(
    name: string,
    localRoot: string,
    remoteUser: string,
    remoteHost: string,
    remoteRoot: string,
    remotePassword: string,
    delete: bool,
    delayMs: int,
    excludes: seq<string>)  // exclude_count is |excludes|

  /** `init_config`: everything zero or empty except a 500 ms delay. */
  function InitConfig(): Config {
    Config([], [], [], [], [], [], false, DEFAULT_DELAY_MS, [])
  }

  /**
   * What `realpath(path, buf)` does for one path: whether it succeeded, and
   * what it wrote into `buf`, if anything. A failure may leave the buffer
   * untouched (an empty path is refused before anything is written) or hold
   * the partly resolved path (glibc), so both are inputs.
   */
  datatype Resolved = Resolved(ok: bool, wrote: Option<string>)

  /** The buffer after the call, when it held `before`. */
  function AfterRealpath(r: Resolved, before: string): string {
    match r.wrote
    case Some(p) => p
    case None => before
  }

  /** The zero-filled `struct config` a static variable starts as, before `init_config`. */
  function ZeroConfig(): Config {
    Config([], [], [], [], [], [], false, 0, [])
  }

  /** The library calls the parser relies on, whose behaviour is not modelled. */
  datatype Env = Env(realpath: string -> Resolved, atoi: string -> int)

  /** What `check_permissions`, `fopen` and reading give for one config file. */
  datatype Source =
    | StatFailed              // stat fails, e.g. the file is missing
    | TooOpen                 // group or other permission bits are set
    | Unopenable              // permissions are fine but fopen fails
    | Readable(text: string)  // the whole content of the file

  /** One fgets line once trimmed: ignored, or split into a key and a value. */
  datatype Line = Skip | Entry(key: string, value: string)

  /** `strchr(t, '=')`. */
  function FirstEq(t: string): (i: nat)
    requires '=' in t
    ensures i < |t| && t[i] == '=' && '=' !in t[..i]
  {
    if t[0] == '=' then 0
    else
      assert '=' in t[1..] by { assert t == [t[0]] + t[1..]; }
      var j := FirstEq(t[1..]);
      assert t[..j + 1] == [t[0]] + t[1..][..j];
      1 + j
  }

  /** The trimmed line, the `=` test and the split of `parse_config_file`. */
  function SplitLine(raw: string): Line {
    var t := Trimmed(UntilNul(raw));
    if t == [] || t[0] == '#' || '=' !in t then Skip
    else
      var i := FirstEq(t);
      Entry(Trimmed(t[..i]), Trimmed(t[i + 1..]))
  }

  /** A nonempty, non-comment line with an `=` splits at its FIRST `=`; key and value are trimmed. */
  lemma SplitAtFirstEq(raw: string, i: nat)
    requires var t := Trimmed(UntilNul(raw));
      i < |t| && t[i] == '=' && '=' !in t[..i] && t[0] != '#'
    ensures var t := Trimmed(UntilNul(raw));
      SplitLine(raw) == Entry(Trimmed(t[..i]), Trimmed(t[i + 1..]))
  {
    FirstEqUnique(Trimmed(UntilNul(raw)), i);
  }

  /** The first `=` is the only `=` with none before it. */
  lemma FirstEqUnique(t: string, i: nat)
    requires i < |t| && t[i] == '=' && '=' !in t[..i]
    ensures FirstEq(t) == i
  {
    var j := FirstEq(t);
    assert forall k :: 0 <= k < j ==> t[..j][k] != '=';
    assert forall k :: 0 <= k < i ==> t[..i][k] != '=';
  }

  /** The other lines are skipped, and a skipped line leaves the config as it was. */
  lemma SplitSkips(raw: string, c: Config, env: Env)
    ensures var t := Trimmed(UntilNul(raw));
      SplitLine(raw) == Skip <==> t == [] || t[0] == '#' || '=' !in t
    ensures SplitLine(raw) == Skip ==> ApplyLine(c, SplitLine(raw), env) == c
  {
  }

  datatype Field =
    | LocalRoot | RemoteUser | RemoteHost | RemoteRoot | RemotePassword | Delete | DelayMs | Excludes

  /** The `strcmp` chain of `parse_config_file`: the field a recognised key is for. */
  function KeyField(key: string): Option<Field> {
    if key == "local.root" then Some(LocalRoot)
    else if key == "remote.user" then Some(RemoteUser)
    else if key == "remote.host" then Some(RemoteHost)
    else if key == "remote.root" then Some(RemoteRoot)
    else if key == "remote.password" then Some(RemotePassword)
    else if key == "rsync.delete" then Some(Delete)
    else if key == "rsync.delay_ms" then Some(DelayMs)
    else if key == "exclude" then Some(Excludes)
    else None
  }

  /** What the branch for field `f` does with the value. */
  function SetField(c: Config, f: Field, value: string, env: Env): Config {
    match f
    case LocalRoot =>
      c.(localRoot := AfterRealpath(env.realpath(value), c.localRoot))
    case RemoteUser => c.(remoteUser := Truncate(value, USER_SIZE))
    case RemoteHost => c.(remoteHost := Truncate(value, HOST_SIZE))
    case RemoteRoot => c.(remoteRoot := Truncate(value, PATH_MAX))
    case RemotePassword => c.(remotePassword := Truncate(value, PASSWORD_SIZE))
    case Delete => c.(delete := value == "true")
    case DelayMs => c.(delayMs := env.atoi(value))
    case Excludes =>
      if |c.excludes| < MAX_EXCLUDES then c.(excludes := c.excludes + [Truncate(value, PATH_MAX)])
      else c
  }

  /** The key dispatch of `parse_config_file` for one key and value. */
  function ApplyEntry(c: Config, key: string, value: string, env: Env): Config {
    match KeyField(key)
    case Some(f) => SetField(c, f, value, env)
    case None => c
  }

  /** `c` and `d` agree on every field except possibly the one `f` names. */
  predicate SameExcept(c: Config, d: Config, f: Option<Field>) {
    && c.name == d.name
    && (f != Some(LocalRoot) ==> c.localRoot == d.localRoot)
    && (f != Some(RemoteUser) ==> c.remoteUser == d.remoteUser)
    && (f != Some(RemoteHost) ==> c.remoteHost == d.remoteHost)
    && (f != Some(RemoteRoot) ==> c.remoteRoot == d.remoteRoot)
    && (f != Some(RemotePassword) ==> c.remotePassword == d.remotePassword)
    && (f != Some(Delete) ==> c.delete == d.delete)
    && (f != Some(DelayMs) ==> c.delayMs == d.delayMs)
    && (f != Some(Excludes) ==> c.excludes == d.excludes)
  }

  /** A recognised key writes its own field and no other; an unrecognised key changes nothing. */
  lemma DispatchWritesOwnField(c: Config, key: string, value: string, env: Env)
    ensures SameExcept(c, ApplyEntry(c, key, value, env), KeyField(key))
    ensures KeyField(key) == None ==> ApplyEntry(c, key, value, env) == c
  {
    match KeyField(key)
    case None =>
    case Some(f) =>
      assert ApplyEntry(c, key, value, env) == SetField(c, f, value, env);
  }

  /**
   * What each key writes: `rsync.delete` is set exactly when the value is
   * "true", the string fields receive the value cut to their buffer sizes,
   * `local.root` holds whatever `realpath` wrote into the buffer, even when
   * it failed, and its old contents when it wrote nothing, and an `exclude`
   * beyond MAX_EXCLUDES is dropped.
   */
  lemma DispatchFieldValue(c: Config, key: string, value: string, env: Env)
    ensures var d := ApplyEntry(c, key, value, env);
      && (key == "rsync.delete" ==> (d.delete <==> value == "true"))
      && (key == "remote.user" ==> d.remoteUser == Truncate(value, USER_SIZE))
      && (key == "remote.host" ==> d.remoteHost == Truncate(value, HOST_SIZE))
      && (key == "remote.root" ==> d.remoteRoot == Truncate(value, PATH_MAX))
      && (key == "remote.password" ==> d.remotePassword == Truncate(value, PASSWORD_SIZE))
      && (key == "local.root" ==> d.localRoot == AfterRealpath(env.realpath(value), c.localRoot))
      && (key == "rsync.delay_ms" ==> d.delayMs == env.atoi(value))
      && (key == "exclude" ==>
            d.excludes == (if |c.excludes| < MAX_EXCLUDES then c.excludes + [Truncate(value, PATH_MAX)] else c.excludes))
  {
  }

  /** One line: skipped lines leave the config as it was; entries are dispatched. */
  function ApplyLine(c: Config, l: Line, env: Env): Config {
    match l
    case Skip => c
    case Entry(k, v) => ApplyEntry(c, k, v, env)
  }

  /** The message one line causes: a `local.root` that realpath rejects. */
  function LineLog(l: Line, path: string, env: Env): seq<LogEntry> {
    match l
    case Skip => []
    case Entry(k, v) =>
      if k == "local.root" && !env.realpath(v).ok then [InvalidLocalRoot(v, path)] else []
  }

  /** Every line of a file, trimmed and split. */
  function SplitLines(raws: seq<string>): seq<Line> {
    seq(|raws|, i requires 0 <= i < |raws| => SplitLine(raws[i]))
  }

  /** The lines applied in order. */
  function ApplyLines(c: Config, lines: seq<Line>, env: Env): Config
    decreases |lines|
  {
    if lines == [] then c
    else ApplyLine(ApplyLines(c, lines[..|lines| - 1], env), lines[|lines| - 1], env)
  }

  /** The messages of the lines, in order. */
  function LinesLog(lines: seq<Line>, path: string, env: Env): seq<LogEntry>
    decreases |lines|
  {
    if lines == [] then []
    else LinesLog(lines[..|lines| - 1], path, env) + LineLog(lines[|lines| - 1], path, env)
  }

  /** The struct after `parse_config_file(path, &c)`. */
  function Parsed(c: Config, src: Source, env: Env): Config {
    match src
    case Readable(text) => ApplyLines(c, SplitLines(FgetsLines(text, LINE_SIZE)), env)
    case _ => c
  }

  /** What `parse_config_file` logs. */
  function ParseLog(path: string, src: Source, env: Env): seq<LogEntry> {
    match src
    case StatFailed => [InsecureConfigFile(path)]
    case TooOpen => [PermissionsTooOpen(path), InsecureConfigFile(path)]
    case Unopenable => [ConfigUnopenable(path)]
    case Readable(text) => LinesLog(SplitLines(FgetsLines(text, LINE_SIZE)), path, env)
  }

  /**
   * `parse_config_file`: a file that fails the permission check or cannot be
   * opened leaves the struct untouched; otherwise its lines are applied in
   * order.
   */
  method ParseConfigFile(path: string, c: Config, src: Source, env: Env)
    returns (r: Config, log: seq<LogEntry>)
    ensures r == Parsed(c, src, env)
    ensures log == ParseLog(path, src, env)
    ensures !src.Readable? ==> r == c
  {
    match src {
      case StatFailed =>
        return c, [InsecureConfigFile(path)];
      case TooOpen =>
        return c, [PermissionsTooOpen(path), InsecureConfigFile(path)];
      case Unopenable =>
        return c, [ConfigUnopenable(path)];
      case Readable(text) =>
        var raws := FgetsLines(text, LINE_SIZE);
        ghost var lines := SplitLines(raws);
        r, log := c, [];
        var i := 0;
        while i < |raws|
          invariant i <= |raws|
          invariant r == ApplyLines(c, lines[..i], env)
          invariant log == LinesLog(lines[..i], path, env)
        {
          var l := SplitLine(raws[i]);
          LinesStep(c, lines, i, path, env);
          log := log + LineLog(l, path, env);
          r := ApplyLine(r, l, env);
          i := i + 1;
        }
        assert lines[..i] == lines;
    }
  }

  /** One more line of the loop: its entry applied and its message logged. */
  lemma LinesStep(c: Config, lines: seq<Line>, i: nat, path: string, env: Env)
    requires i < |lines|
    ensures ApplyLines(c, lines[..i + 1], env) == ApplyLine(ApplyLines(c, lines[..i], env), lines[i], env)
    ensures LinesLog(lines[..i + 1], path, env) == LinesLog(lines[..i], path, env) + LineLog(lines[i], path, env)
  {
    assert lines[..i + 1][..i] == lines[..i];
  }

  /** The values of the `exclude` entries among `lines`, in order. */
  function ExcludeValues(lines: seq<Line>): seq<string>
    decreases |lines|
  {
    if lines == [] then []
    else
      var rest := ExcludeValues(lines[..|lines| - 1]);
      match lines[|lines| - 1]
      case Entry(k, v) => if KeyField(k) == Some(Excludes) then rest + [Truncate(v, PATH_MAX)] else rest
      case Skip => rest
  }

  /** The first MAX_EXCLUDES elements of `s`. */
  function Capped(s: seq<string>): seq<string> {
    if |s| <= MAX_EXCLUDES then s else s[..MAX_EXCLUDES]
  }

  /**
   * The exclude list after parsing is the old list followed by the file's
   * excludes, cut at MAX_EXCLUDES: the count never passes the cap, later
   * excludes are dropped and the earlier ones are left as they were.
   */
  lemma {:induction false} ExcludesCapped(c: Config, lines: seq<Line>, env: Env)
    requires |c.excludes| <= MAX_EXCLUDES
    ensures ApplyLines(c, lines, env).excludes == Capped(c.excludes + ExcludeValues(lines))
    decreases |lines|
  {
    if lines != [] {
      var init := lines[..|lines| - 1];
      ExcludesCapped(c, init, env);
      var prev := ApplyLines(c, init, env);
      var all := c.excludes + ExcludeValues(init);
      match lines[|lines| - 1]
      case Skip =>
        assert ApplyLines(c, lines, env) == prev;
        assert ExcludeValues(lines) == ExcludeValues(init);
      case Entry(k, v) =>
        assert ApplyLines(c, lines, env) == ApplyEntry(prev, k, v, env);
        ExcludeEntry(prev, k, v, env);
        if KeyField(k) == Some(Excludes) {
          var x := Truncate(v, PATH_MAX);
          assert ExcludeValues(lines) == ExcludeValues(init) + [x];
          assert all + [x] == c.excludes + ExcludeValues(lines);
          if |all| < MAX_EXCLUDES {
            assert prev.excludes == all;
            assert Capped(all + [x]) == all + [x];
          } else {
            assert |prev.excludes| == MAX_EXCLUDES;
            assert Capped(all + [x]) == Capped(all);
          }
        } else {
          assert ExcludeValues(lines) == ExcludeValues(init);
        }
    }
  }

  /** What one entry does to the exclude list. */
  lemma ExcludeEntry(c: Config, key: string, value: string, env: Env)
    ensures ApplyEntry(c, key, value, env).excludes ==
      if KeyField(key) == Some(Excludes) && |c.excludes| < MAX_EXCLUDES
      then c.excludes + [Truncate(value, PATH_MAX)] else c.excludes
  {
  }

  /** A consequence: whatever a file holds, exclude_count stays within MAX_EXCLUDES. */
  lemma ParsedExcludesBounded(c: Config, src: Source, env: Env)
    requires |c.excludes| <= MAX_EXCLUDES
    ensures var r := Parsed(c, src, env);
      |c.excludes| <= |r.excludes| <= MAX_EXCLUDES && r.excludes[..|c.excludes|] == c.excludes
  {
    if src.Readable? {
      var lines := SplitLines(FgetsLines(src.text, LINE_SIZE));
      ExcludesCapped(c, lines, env);
      var all := c.excludes + ExcludeValues(lines);
      assert all[..|c.excludes|] == c.excludes;
    }
  }

  /** The value of the last entry for `key` among `lines`, if any. */
  function LastValue(lines: seq<Line>, key: string): Option<string>
    decreases |lines|
  {
    if lines == [] then None
    else
      match lines[|lines| - 1]
      case Entry(k, v) => if k == key then Some(v) else LastValue(lines[..|lines| - 1], key)
      case Skip => LastValue(lines[..|lines| - 1], key)
  }

  /** The value a field takes from the last entry that sets it, or keeps. */
  function Overridden(before: string, last: Option<string>, size: nat): string
    requires size >= 1
  {
    match last
    case Some(v) => Truncate(v, size)
    case None => before
  }

  /**
   * For the string fields the last entry wins: each holds the value of the
   * last line that sets it, cut to its buffer, or its earlier value when no
   * line does. The name is never written by a file.
   */
  lemma {:induction false} LastStringEntryWins(c: Config, lines: seq<Line>, env: Env)
    ensures var r := ApplyLines(c, lines, env);
      && r.name == c.name
      && r.remoteUser == Overridden(c.remoteUser, LastValue(lines, "remote.user"), USER_SIZE)
      && r.remoteHost == Overridden(c.remoteHost, LastValue(lines, "remote.host"), HOST_SIZE)
      && r.remoteRoot == Overridden(c.remoteRoot, LastValue(lines, "remote.root"), PATH_MAX)
      && r.remotePassword == Overridden(c.remotePassword, LastValue(lines, "remote.password"), PASSWORD_SIZE)
    decreases |lines|
  {
    if lines != [] {
      var init := lines[..|lines| - 1];
      LastStringEntryWins(c, init, env);
      var prev := ApplyLines(c, init, env);
      match lines[|lines| - 1]
      case Skip =>
        assert ApplyLines(c, lines, env) == prev;
      case Entry(k, v) =>
        assert ApplyLines(c, lines, env) == ApplyEntry(prev, k, v, env);
        DispatchWritesOwnField(prev, k, v, env);
        DispatchFieldValue(prev, k, v, env);
    }
  }

  /** Likewise for the delete flag: the last `rsync.delete` entry decides it. */
  lemma {:induction false} LastDeleteEntryWins(c: Config, lines: seq<Line>, env: Env)
    ensures var r := ApplyLines(c, lines, env);
      var last := LastValue(lines, "rsync.delete");
      r.delete == if last.Some? then last.value == "true" else c.delete
    decreases |lines|
  {
    if lines != [] {
      var init := lines[..|lines| - 1];
      LastDeleteEntryWins(c, init, env);
      match lines[|lines| - 1]
      case Skip =>
      case Entry(k, v) =>
        DispatchWritesOwnField(ApplyLines(c, init, env), k, v, env);
        DispatchFieldValue(ApplyLines(c, init, env), k, v, env);
    }
  }

  /** And for the delay: the last `rsync.delay_ms` entry decides it. */
  lemma {:induction false} LastDelayEntryWins(c: Config, lines: seq<Line>, env: Env)
    ensures var r := ApplyLines(c, lines, env);
      var last := LastValue(lines, "rsync.delay_ms");
      r.delayMs == if last.Some? then env.atoi(last.value) else c.delayMs
    decreases |lines|
  {
    if lines != [] {
      var init := lines[..|lines| - 1];
      LastDelayEntryWins(c, init, env);
      match lines[|lines| - 1]
      case Skip =>
      case Entry(k, v) =>
        DispatchWritesOwnField(ApplyLines(c, init, env), k, v, env);
        DispatchFieldValue(ApplyLines(c, init, env), k, v, env);
    }
  }

  /** What the last `local.root` line whose `realpath` call wrote the buffer wrote there. */
  function LastRootWritten(lines: seq<Line>, env: Env): Option<string>
    decreases |lines|
  {
    if lines == [] then None
    else
      var rest := LastRootWritten(lines[..|lines| - 1], env);
      match lines[|lines| - 1]
      case Entry(k, v) => if k == "local.root" && env.realpath(v).wrote.Some? then env.realpath(v).wrote else rest
      case Skip => rest
  }

  /**
   * And for the local root: it holds what the last `realpath` call that
   * wrote the buffer wrote there, whether or not that call succeeded; a
   * `local.root` line whose call writes nothing (an empty value) keeps the
   * root from before it, possibly the global config's.
   */
  lemma {:induction false} LastRootEntryWins(c: Config, lines: seq<Line>, env: Env)
    ensures var r := ApplyLines(c, lines, env);
      var last := LastRootWritten(lines, env);
      r.localRoot == if last.Some? then last.value else c.localRoot
    decreases |lines|
  {
    if lines != [] {
      var init := lines[..|lines| - 1];
      LastRootEntryWins(c, init, env);
      match lines[|lines| - 1]
      case Skip =>
      case Entry(k, v) =>
        DispatchWritesOwnField(ApplyLines(c, init, env), k, v, env);
        DispatchFieldValue(ApplyLines(c, init, env), k, v, env);
    }
  }

  /** A file without a `local.root` line never writes the root. */
  lemma {:induction false} NoRootLineNoWrite(lines: seq<Line>, env: Env)
    requires LastValue(lines, "local.root") == None
    ensures LastRootWritten(lines, env) == None
    decreases |lines|
  {
    if lines != [] {
      NoRootLineNoWrite(lines[..|lines| - 1], env);
    }
  }

  /**
   * A fresh config (`init_config`) has a 500 ms delay, no delete flag and
   * every string and the exclude list empty; after a file is applied to it,
   * each field keeps that default unless a line of the file sets it.
   */
  lemma InitConfigDefaults(lines: seq<Line>, env: Env)
    ensures var r := ApplyLines(InitConfig(), lines, env);
      && (LastValue(lines, "rsync.delay_ms") == None ==> r.delayMs == DEFAULT_DELAY_MS)
      && (LastValue(lines, "rsync.delete") == None ==> !r.delete)
      && (LastValue(lines, "remote.user") == None ==> r.remoteUser == [])
      && (LastValue(lines, "remote.host") == None ==> r.remoteHost == [])
      && (LastValue(lines, "remote.root") == None ==> r.remoteRoot == [])
      && (LastValue(lines, "remote.password") == None ==> r.remotePassword == [])
      && (LastValue(lines, "local.root") == None ==> r.localRoot == [])
      && r.name == []
      && r.excludes == Capped(ExcludeValues(lines))
  {
    LastStringEntryWins(InitConfig(), lines, env);
    LastDeleteEntryWins(InitConfig(), lines, env);
    LastDelayEntryWins(InitConfig(), lines, env);
    LastRootEntryWins(InitConfig(), lines, env);
    if LastValue(lines, "local.root") == None {
      NoRootLineNoWrite(lines, env);
    }
    ExcludesCapped(InitConfig(), lines, env);
    assert InitConfig().excludes + ExcludeValues(lines) == ExcludeValues(lines);
  }
}
