// The messages watchsync hands to its logging sink (`ws_log`), as values.
// Whether a message goes to the console or to syslog is not modelled; the
// level and the formatted text of each message are.

module Logging {

  datatype Level = Info | Warning | Error

  datatype LogEntry =
    | PermissionsTooOpen(path: string)
    | InsecureConfigFile(path: string)
    | ConfigUnopenable(path: string)
    | InvalidLocalRoot(value: string, path: string)
    | InsecureConfigDir(path: string)
    | NoJobs
    | DaemonStarted(count: int)
    | Monitoring(job: string, root: string)
    | MkstempFailed(job: string)
    | CommandOverflow(job: string)
    | RsyncStart(job: string)
    | RsyncLine(job: string, text: string)
    | RsyncOk(job: string)
    | RsyncError(job: string, rc: int)
  {
    /** Whether the message is about one job, and so carries its name. */
    predicate PerJob() {
      || Monitoring? || MkstempFailed? || CommandOverflow?
      || RsyncStart? || RsyncLine? || RsyncOk? || RsyncError?
    }

    /**
     * The syslog priority the source passes with this message: a job's
     * messages are errors exactly when they report a failure, and only the
     * two reasons for skipping a config file are warnings.
     */
    function Level(): (r: Level)
      ensures PerJob() ==> (r == Error <==> MkstempFailed? || CommandOverflow? || RsyncError?)
      ensures r == Warning <==> InsecureConfigFile? || ConfigUnopenable?
    {
      match this
      case InsecureConfigFile(_) => Warning
      case ConfigUnopenable(_) => Warning
      case DaemonStarted(_) => Info
      case Monitoring(_, _) => Info
      case RsyncStart(_) => Info
      case RsyncLine(_, _) => Info
      case RsyncOk(_) => Info
      case _ => Error
    }

    /** The formatted text of the message; a job's messages open with its "[name] " tag. */
    function Text(): (r: string)
      ensures PerJob() ==> Tag(job) <= r
    {
      if PerJob() then Tag(job) + JobText()
      else
        match this
        case PermissionsTooOpen(p) =>
          "Security Error: '" + p + "' has too open permissions. Must be 0600 or 0700."
        case InsecureConfigFile(p) => "Skipping insecure config file: " + p
        case ConfigUnopenable(p) => "Could not open config file " + p
        case InvalidLocalRoot(v, p) => "Error: Invalid local.root '" + v + "' in " + p
        case InsecureConfigDir(p) => "Error: Config directory " + p + " is insecure."
        case NoJobs => "No valid jobs found. Check permissions and /etc/watchsync.d/"
        case DaemonStarted(n) => "WatchSync daemon started with " + IntText(n) + " jobs"
        case _ => []
    }

    /** What a job's message says after its tag. */
    function JobText(): string
      requires PerJob()
    {
      match this
      case Monitoring(_, r) => "Monitoring " + r
      case MkstempFailed(_) => "mkstemp failed"
      case CommandOverflow(_) => "Command buffer overflow"
      case RsyncStart(_) => "=== RSYNC START ==="
      case RsyncLine(_, t) => t
      case RsyncOk(_) => "=== RSYNC OK ==="
      case RsyncError(_, rc) => "=== RSYNC ERROR (exit code " + IntText(rc) + ") ==="
    }
  }

  /** The "[name] " prefix of every per-job message. */
  function Tag(job: string): string {
    "[" + job + "] "
  }

  function DigitText(d: nat): string
    requires d < 10
  {
    ["0123456789"[d]]
  }

  /** `%d` of a nonnegative number. */
  function NatText(n: nat): string
    decreases n
  {
    if n < 10 then DigitText(n) else NatText(n / 10) + DigitText(n % 10)
  }

  /** `%d` of any integer. */
  function IntText(n: int): string {
    if n < 0 then "-" + NatText(-n) else NatText(n)
  }
}
