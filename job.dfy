// `watch_job`: one job's runtime. It creates the inotify instance, watches the
// job's tree, and then loops: read events, run the debounce check, and on a
// flush run rsync and walk the tree again to pick up new directories.
//
// The loop never ends in the program; here it runs over a finite sequence of
// ticks, each of which supplies what the outside world gives that iteration.

module Job {

  import opened Logging
  import opened Config
  import opened WatchTree
  import opened Debounce
  import opened Rsync

  /**
   * What one iteration sees: whether `read` returned events, the clock in
   * milliseconds, the tree the post-flush rebuild would walk, and the
   * outcomes of run_rsync's system calls should it flush.
   */
  datatype JobTick = JobTick(events: bool, now: int, tree: Node, sync: SyncEnv)

  function PollOf(t: JobTick): Poll {
    Poll(t.events, t.now)
  }

  /** The debounce inputs of a sequence of ticks. */
  function Polls(ts: seq<JobTick>): seq<Poll> {
    seq(|ts|, i requires 0 <= i < |ts| => PollOf(ts[i]))
  }

  lemma PollsPrefix(ts: seq<JobTick>, n: nat)
    requires n <= |ts|
    ensures Polls(ts[..n]) == Polls(ts)[..n]
  {
  }

  /** Whether tick `j` flushes, given the ticks before it. */
  predicate FlushesAt(ts: seq<JobTick>, j: nat, delay: int)
    requires j < |ts|
  {
    Step(Run(Start, Polls(ts[..j]), delay), PollOf(ts[j]), delay).1
  }

  /** The paths watched after the ticks `ts`: the first walk, and one more walk per flush. */
  function JobWatches(root: string, start: Node, ts: seq<JobTick>, delay: int): set<string>
    decreases |ts|
  {
    if ts == [] then WatchPaths(root, start)
    else
      var n := |ts| - 1;
      JobWatches(root, start, ts[..n], delay)
        + if FlushesAt(ts, n, delay) then WatchPaths(root, ts[n].tree) else {}
  }

  /** What the job's loop has produced: its debounce state, its flushes, its watches, its log. */
  datatype Outcome = Outcome(state: State, flushTimes: seq<int>, watched: set<string>, log: seq<LogEntry>)

  /** What `watch_job(c)` has produced after the ticks `ts`, iteration by iteration. */
  function JobRun(c: Config, start: Node, ts: seq<JobTick>): Outcome
    decreases |ts|
  {
    if ts == [] then Outcome(Start, [], WatchPaths(c.localRoot, start), [Monitoring(c.name, c.localRoot)])
    else
      var o := JobRun(c, start, ts[..|ts| - 1]);
      var t := ts[|ts| - 1];
      var st := Step(o.state, PollOf(t), c.delayMs);
      if st.1 then
        Outcome(st.0, o.flushTimes + [t.now], o.watched + WatchPaths(c.localRoot, t.tree), o.log + SyncLog(c, t.sync))
      else o.(state := st.0)
  }

  /**
   * `watch_job(c)` over the ticks `ts`. When `inotify_init1` fails the
   * process dies before watching anything; the message `die` prints then is
   * not part of the log modelled here. Otherwise the flushes happen at
   * exactly the ticks the debounce rule picks and the watch list is the
   * first walk of the tree plus one walk per flush; the log is the
   * Monitoring line followed by what each flush's run_rsync logged.
   */
  method WatchJob(c: Config, initOk: bool, start: Node, ts: seq<JobTick>)
    returns (died: bool, flushTimes: seq<int>, watched: set<string>, log: seq<LogEntry>)
    ensures died <==> !initOk
    ensures died ==> flushTimes == [] && watched == {} && log == []
    ensures !died ==> flushTimes == JobRun(c, start, ts).flushTimes == Flushes(Start, Polls(ts), c.delayMs)
    ensures !died ==> watched == JobRun(c, start, ts).watched == JobWatches(c.localRoot, start, ts, c.delayMs)
    ensures !died ==> log == JobRun(c, start, ts).log && log != [] && log[0] == Monitoring(c.name, c.localRoot)
  {
    if !initOk {
      return true, [], {}, [];
    }
    died := false;
    var w := new Watcher();
    w.AddWatchRecursive(c.localRoot, start);
    log := [Monitoring(c.name, c.localRoot)];
    var d := new Debouncer(c.delayMs);
    flushTimes := [];
    var i := 0;
    while i < |ts|
      invariant i <= |ts|
      invariant d.delayMs == c.delayMs
      invariant Outcome(d.Current(), flushTimes, w.watched, log) == JobRun(c, start, ts[..i])
    {
      var t := ts[i];
      assert ts[..i + 1][..i] == ts[..i];
      var flush := d.Tick(t.events, t.now);
      if flush {
        var msgs := Flush(c, w, t);
        log := log + msgs;
        flushTimes := flushTimes + [t.now];
      }
      i := i + 1;
    }
    assert ts[..i] == ts;
    watched := w.watched;
    JobRunMatchesSpec(c, start, ts);
    JobRunLogStart(c, start, ts);
  }

  /** A flush: `run_rsync(c)`, then the walk of the tree as it now is. */
  method Flush(c: Config, w: Watcher, t: JobTick) returns (msgs: seq<LogEntry>)
    modifies w
    ensures msgs == SyncLog(c, t.sync)
    ensures w.watched == old(w.watched) + WatchPaths(c.localRoot, t.tree)
  {
    var ran;
    ran, msgs := RunRsync(c, t.sync);
    w.AddWatchRecursive(c.localRoot, t.tree);
  }

  /**
   * The job loop follows the debounce engine: its state is Run of the ticks,
   * it flushes at exactly the ticks Flushes picks, and its watches are the
   * first walk plus the walks after those flushes.
   */
  lemma {:induction false} JobRunMatchesSpec(c: Config, start: Node, ts: seq<JobTick>)
    ensures var o := JobRun(c, start, ts);
      && o.state == Run(Start, Polls(ts), c.delayMs)
      && o.flushTimes == Flushes(Start, Polls(ts), c.delayMs)
      && o.watched == JobWatches(c.localRoot, start, ts, c.delayMs)
    decreases |ts|
  {
    if ts != [] {
      var n := |ts| - 1;
      JobRunMatchesSpec(c, start, ts[..n]);
      var ps := Polls(ts);
      assert ps[..|ps| - 1] == Polls(ts[..n]) && ps[|ps| - 1] == PollOf(ts[n]);
    }
  }

  /** The log always opens with the Monitoring line. */
  lemma {:induction false} JobRunLogStart(c: Config, start: Node, ts: seq<JobTick>)
    ensures var log := JobRun(c, start, ts).log;
      |log| >= 1 && log[0] == Monitoring(c.name, c.localRoot)
    decreases |ts|
  {
    if ts != [] {
      JobRunLogStart(c, start, ts[..|ts| - 1]);
    }
  }

  /** The walk after the flush at tick `j` reaches `p`. */
  predicate FlushWatches(root: string, ts: seq<JobTick>, j: nat, delay: int, p: string) {
    j < |ts| && FlushesAt(ts, j, delay) && p in WatchPaths(root, ts[j].tree)
  }

  /** Whether a tick flushes does not depend on the ticks after it. */
  lemma FlushWatchesPrefix(root: string, ts: seq<JobTick>, m: nat, j: nat, delay: int, p: string)
    requires j < m <= |ts|
    ensures FlushWatches(root, ts[..m], j, delay, p) == FlushWatches(root, ts, j, delay, p)
  {
    assert ts[..m][..j] == ts[..j];
  }

  /**
   * A path is watched exactly when the first walk or the walk after some
   * flush reached it: a directory that appears during a quiet period is not
   * covered until the rebuild that follows the next flush.
   */
  lemma {:induction false} JobWatchesMember(root: string, start: Node, ts: seq<JobTick>, delay: int, p: string)
    ensures p in JobWatches(root, start, ts, delay) <==>
      p in WatchPaths(root, start) || exists j: nat :: FlushWatches(root, ts, j, delay, p)
    decreases |ts|
  {
    if ts != [] {
      var n := |ts| - 1;
      var init := ts[..n];
      JobWatchesMember(root, start, init, delay, p);
      if exists j: nat :: FlushWatches(root, init, j, delay, p) {
        var j: nat :| FlushWatches(root, init, j, delay, p);
        FlushWatchesPrefix(root, ts, n, j, delay, p);
      }
      if exists j: nat :: FlushWatches(root, ts, j, delay, p) {
        var j: nat :| FlushWatches(root, ts, j, delay, p);
        if j < n {
          FlushWatchesPrefix(root, ts, n, j, delay, p);
        }
      }
      if FlushesAt(ts, n, delay) && p in WatchPaths(root, ts[n].tree) {
        assert FlushWatches(root, ts, n, delay, p);
      }
    }
  }

  /** Watches are never removed: the list after a prefix of the ticks is contained in the list after all of them. */
  lemma {:induction false} JobWatchesGrow(root: string, start: Node, ts: seq<JobTick>, m: nat, delay: int)
    requires m <= |ts|
    ensures JobWatches(root, start, ts[..m], delay) <= JobWatches(root, start, ts, delay)
    decreases |ts|
  {
    if m < |ts| {
      var n := |ts| - 1;
      assert ts[..n][..m] == ts[..m];
      JobWatchesGrow(root, start, ts[..n], m, delay);
    } else {
      assert ts[..m] == ts;
    }
  }

  /**
   * Rebuilding is idempotent: when the tree does not change, walking it
   * again after any number of flushes leaves exactly the watches of the
   * first walk, with no path added twice or lost.
   */
  lemma {:induction false} StableTreeStableWatches(root: string, start: Node, ts: seq<JobTick>, delay: int)
    requires forall j :: 0 <= j < |ts| ==> ts[j].tree == start
    ensures JobWatches(root, start, ts, delay) == WatchPaths(root, start)
    decreases |ts|
  {
    if ts != [] {
      StableTreeStableWatches(root, start, ts[..|ts| - 1], delay);
    }
  }

  /** Without a flush the watch list is what the first walk found, whatever the tree has become. */
  lemma {:induction false} NoFlushNoNewWatch(root: string, start: Node, ts: seq<JobTick>, delay: int)
    requires Flushes(Start, Polls(ts), delay) == []
    ensures JobWatches(root, start, ts, delay) == WatchPaths(root, start)
    decreases |ts|
  {
    if ts != [] {
      var n := |ts| - 1;
      PollsPrefix(ts, n);
      assert Polls(ts)[..|Polls(ts)| - 1] == Polls(ts[..n]);
      NoFlushNoNewWatch(root, start, ts[..n], delay);
    }
  }
}
