// `add_watch_recursive`: the inotify watches watchsync puts on a job's tree.
//
// The directory tree is a value describing what the system calls would report
// at the time of the walk; the inotify instance's watch list is a set of
// paths that the walk adds to (the kernel's choice of watch descriptors is not
// modelled: adding a watch for a path already in the list changes nothing).

module WatchTree {

  import opened Strings

  /** What a path of the walked tree is, as far as the walk can tell. */
  datatype Node =
    | Dir(name: string, watchable: bool, openable: bool, children: seq<Node>)
      // watchable: inotify_add_watch succeeds; openable: opendir succeeds;
      // children: what readdir lists, "." and ".." included
    | File(name: string, watchable: bool)  // any other non-directory; watchable as for Dir
    | Symlink(name: string, target: Node)  // lstat reports a link; target is what it points to
    | Vanished(name: string)               // listed by readdir, but lstat fails

  /** `snprintf(sub, PATH_MAX, "%s/%s", path, name)`, for paths shorter than PATH_MAX. */
  function Join(path: string, name: string): string {
    path + "/" + name
  }

  predicate IsDotEntry(name: string) {
    name == "." || name == ".."
  }

  /** `lstat(sub) == 0 && S_ISDIR(st.st_mode)` for a directory entry. */
  predicate IsRealDir(n: Node) {
    n.Dir?
  }

  /**
   * The paths `add_watch_recursive(fd, path)` puts a watch on when `path`
   * is `n`. inotify_add_watch and opendir both follow a symbolic link at
   * `path` itself, so a link behaves as its target; entries below are
   * descended into only when lstat reports a directory.
   */
  function WatchPaths(path: string, n: Node): set<string>
    decreases n, 1, 0
  {
    match n
    case Symlink(_, t) => WatchPaths(path, t)
    case File(_, w) => if w then {path} else {}
    case Vanished(_) => {}
    case Dir(_, w, o, cs) =>
      (if w then {path} else {}) + (if o then ChildrenWatch(path, n, |cs|) else {})
  }

  /** The watches one directory entry `c` of `path` contributes. */
  function EntryWatch(path: string, c: Node): set<string>
    decreases c, 2, 0
  {
    if !IsDotEntry(c.name) && IsRealDir(c) then WatchPaths(Join(path, c.name), c) else {}
  }

  /** The watches the readdir loop adds for the first `k` entries of the directory `n`. */
  function ChildrenWatch(path: string, n: Node, k: nat): set<string>
    requires n.Dir? && k <= |n.children|
    decreases n, 0, k
  {
    if k == 0 then {}
    else
      var c := n.children[k - 1];
      assert c in n.children;
      ChildrenWatch(path, n, k - 1) + EntryWatch(path, c)
  }

  /** The two system calls the walk makes on a path, in the order it makes them. */
  datatype Call = AddWatchCall(path: string) | OpenDirCall(path: string)

  /** The calls `add_watch_recursive(fd, path)` makes when `path` is `n`. */
  function Calls(path: string, n: Node): seq<Call>
    decreases n, 1, 0
  {
    match n
    case Symlink(_, t) => Calls(path, t)
    case Dir(_, _, o, cs) =>
      [AddWatchCall(path), OpenDirCall(path)] + (if o then ChildrenCalls(path, n, |cs|) else [])
    case _ => [AddWatchCall(path), OpenDirCall(path)]
  }

  /** The calls one directory entry `c` of `path` leads to. */
  function EntryCalls(path: string, c: Node): seq<Call>
    decreases c, 2, 0
  {
    if !IsDotEntry(c.name) && IsRealDir(c) then Calls(Join(path, c.name), c) else []
  }

  /** The calls the readdir loop makes for the first `k` entries of the directory `n`. */
  function ChildrenCalls(path: string, n: Node, k: nat): seq<Call>
    requires n.Dir? && k <= |n.children|
    decreases n, 0, k
  {
    if k == 0 then []
    else
      var c := n.children[k - 1];
      assert c in n.children;
      ChildrenCalls(path, n, k - 1) + EntryCalls(path, c)
  }

  /** Every opendir of a path comes right after the inotify_add_watch of that path. */
  predicate WatchedBeforeOpened(calls: seq<Call>) {
    forall i :: 0 <= i < |calls| && calls[i].OpenDirCall? ==>
      i > 0 && calls[i - 1] == AddWatchCall(calls[i].path)
  }

  /** The inotify instance: the set of paths it watches, and the calls made so far. */
  class Watcher {
    var watched: set<string>
    ghost var calls: seq<Call>

    constructor ()
      ensures watched == {} && calls == []
    {
      watched := {};
      calls := [];
    }

    /** `inotify_add_watch(fd, path, ...)`; a failing call is ignored. */
    method AddWatch(path: string, n: Node)
      modifies this
      ensures watched == old(watched) + (if AddsWatch(n) then {path} else {})
      ensures calls == old(calls) + [AddWatchCall(path)]
    {
      if AddsWatch(n) {
        watched := watched + {path};
      }
      calls := calls + [AddWatchCall(path)];
    }

    /** `opendir(path)`: whether it succeeds. */
    method OpenDir(path: string, n: Node) returns (ok: bool)
      modifies this
      ensures ok == Opens(n)
      ensures watched == old(watched)
      ensures calls == old(calls) + [OpenDirCall(path)]
    {
      ok := Opens(n);
      calls := calls + [OpenDirCall(path)];
    }

    /** One pass of the readdir loop: skip "." and "..", recurse into what lstat reports as a directory. */
    method VisitEntry(path: string, c: Node)
      modifies this
      ensures watched == old(watched) + EntryWatch(path, c)
      ensures calls == old(calls) + EntryCalls(path, c)
      decreases c, 2
    {
      if !IsDotEntry(c.name) && IsRealDir(c) {
        AddWatchRecursive(Join(path, c.name), c);
      }
    }

    /**
     * `add_watch_recursive`: watch `path`, then, if it can be opened, walk
     * its entries and recurse into every entry other than "." and ".." that
     * lstat reports as a directory. The walk only adds: every earlier watch
     * stays, and walking the same tree again adds nothing new.
     */
    method AddWatchRecursive(path: string, n: Node)
      modifies this
      ensures watched == old(watched) + WatchPaths(path, n)
      ensures calls == old(calls) + Calls(path, n)
      decreases n, 1
    {
      if n.Symlink? {
        AddWatchRecursive(path, n.target);
        return;
      }
      AddWatch(path, n);
      var ok := OpenDir(path, n);
      if !ok {
        return;
      }
      ghost var own := if n.watchable then {path} else {};
      var i := 0;
      while i < |n.children|
        invariant i <= |n.children|
        invariant watched == old(watched) + own + ChildrenWatch(path, n, i)
        invariant calls == old(calls) + [AddWatchCall(path), OpenDirCall(path)] + ChildrenCalls(path, n, i)
      {
        var c := n.children[i];
        assert c in n.children;
        VisitEntry(path, c);
        i := i + 1;
      }
    }
  }

  /** Whether opendir succeeds on a path that is `n`. */
  predicate Opens(n: Node) {
    n.Dir? && n.openable
  }

  /** Whether inotify_add_watch succeeds on a path that is `n`. */
  predicate AddsWatch(n: Node)
    decreases n
  {
    match n
    case Dir(_, w, _, _) => w
    case File(_, w) => w
    case Symlink(_, t) => AddsWatch(t)
    case Vanished(_) => false
  }

  datatype Place = Place(path: string, node: Node)

  /**
   * Following a route of entry indices from `n` at `path`: a link at the
   * start is followed, and each step goes from a directory that opendir can
   * open into one of its entries that is not "." or ".." and that lstat
   * reports as a directory. None when the route leaves those.
   */
  function Walk(path: string, n: Node, route: seq<nat>): Option<Place>
    decreases n, |route|
  {
    if n.Symlink? then Walk(path, n.target, route)
    else if route == [] then Some(Place(path, n))
    else if n.Dir? && n.openable && route[0] < |n.children| then
      var c := n.children[route[0]];
      assert c in n.children;
      if !IsDotEntry(c.name) && IsRealDir(c) then Walk(Join(path, c.name), c, route[1..]) else None
    else None
  }

  /** `p` is reached by a route that ends at something inotify can watch. */
  predicate Reaches(path: string, n: Node, route: seq<nat>, p: string) {
    var w := Walk(path, n, route);
    w.Some? && w.value.path == p && AddsWatch(w.value.node)
  }

  /** Membership in the watches of the first `k` entries. */
  lemma {:induction false} ChildrenWatchMember(path: string, n: Node, k: nat, p: string)
    requires n.Dir? && k <= |n.children|
    ensures p in ChildrenWatch(path, n, k) <==>
      exists j :: 0 <= j < k && ChildWatches(path, n, j, p)
    decreases k
  {
    if k > 0 {
      ChildrenWatchMember(path, n, k - 1, p);
      if ChildWatches(path, n, k - 1, p) {
        assert exists j :: 0 <= j < k && ChildWatches(path, n, j, p);
      }
    }
  }

  /** Entry `j` of directory `n` is walked into and `p` is among its watches. */
  predicate ChildWatches(path: string, n: Node, j: nat, p: string)
    requires n.Dir? && j < |n.children|
  {
    var c := n.children[j];
    && !IsDotEntry(c.name) && IsRealDir(c)
    && p in WatchPaths(Join(path, c.name), c)
  }

  /**
   * What the walk watches, characterised without the walk: exactly the
   * paths that a route reaches through openable directories and entries
   * lstat reports as directories (never "." or "..", never a link below the
   * start), ending where inotify_add_watch succeeds.
   */
  lemma {:induction false} WatchedIffReachable(path: string, n: Node, p: string)
    ensures p in WatchPaths(path, n) <==> exists route :: Reaches(path, n, route, p)
    decreases n
  {
    if n.Symlink? {
      WatchedIffReachable(path, n.target, p);
      forall route ensures Reaches(path, n, route, p) == Reaches(path, n.target, route, p) {
        assert Walk(path, n, route) == Walk(path, n.target, route);
      }
    } else {
      if p in WatchPaths(path, n) {
        WatchedReachable(path, n, p);
      }
      forall route | Reaches(path, n, route, p) ensures p in WatchPaths(path, n) {
        ReachableWatched(path, n, route, p);
      }
    }
  }

  /** Every watched path is reached by some route. */
  lemma {:induction false} WatchedReachable(path: string, n: Node, p: string)
    requires p in WatchPaths(path, n)
    ensures exists route :: Reaches(path, n, route, p)
    decreases n
  {
    match n
    case Symlink(_, t) =>
      WatchedReachable(path, t, p);
      var route :| Reaches(path, t, route, p);
      assert Reaches(path, n, route, p);
    case File(_, _) =>
      assert Reaches(path, n, [], p);
    case Dir(_, w, o, cs) =>
      if w && p == path {
        assert Reaches(path, n, [], p);
      } else {
        ChildrenWatchMember(path, n, |cs|, p);
        var j :| 0 <= j < |cs| && ChildWatches(path, n, j, p);
        var c := cs[j];
        assert c in cs;
        WatchedReachable(Join(path, c.name), c, p);
        var route :| Reaches(Join(path, c.name), c, route, p);
        assert ([j] + route)[1..] == route;
        assert Reaches(path, n, [j] + route, p);
      }
  }

  /** Every path a route reaches is watched. */
  lemma {:induction false} ReachableWatched(path: string, n: Node, route: seq<nat>, p: string)
    requires Reaches(path, n, route, p)
    ensures p in WatchPaths(path, n)
    decreases n, |route|
  {
    if n.Symlink? {
      ReachableWatched(path, n.target, route, p);
    } else if route != [] {
      var j := route[0];
      var c := n.children[j];
      assert c in n.children;
      ReachableWatched(Join(path, c.name), c, route[1..], p);
      assert ChildWatches(path, n, j, p);
      ChildrenWatchMember(path, n, |n.children|, p);
    }
  }

  /**
   * A directory that opendir cannot open keeps its own watch (when
   * inotify_add_watch succeeds on it) but none of its entries get one.
   */
  lemma UnopenableDirWatch(path: string, n: Node)
    requires n.Dir? && !n.openable
    ensures WatchPaths(path, n) == if n.watchable then {path} else {}
  {
  }

  /**
   * Nothing reached through a symbolic link inside the tree, nor through "."
   * or "..", is ever watched: the walk of a directory is the same as if such
   * entries were not there.
   */
  lemma {:induction false} SkippedEntriesIgnored(path: string, n: Node, k: nat, c: Node)
    requires n.Dir? && k <= |n.children|
    requires IsDotEntry(c.name) || !IsRealDir(c)
    ensures var m := n.(children := n.children[..k] + [c] + n.children[k..]);
      WatchPaths(path, m) == WatchPaths(path, n)
  {
    var m := n.(children := n.children[..k] + [c] + n.children[k..]);
    InsertSkipped(path, n, m, k, c, |n.children|);
  }

  lemma {:induction false} InsertSkipped(path: string, n: Node, m: Node, k: nat, c: Node, i: nat)
    requires n.Dir? && k <= i <= |n.children|
    requires IsDotEntry(c.name) || !IsRealDir(c)
    requires m == n.(children := n.children[..k] + [c] + n.children[k..])
    ensures ChildrenWatch(path, m, i + 1) == ChildrenWatch(path, n, i)
    decreases i
  {
    if i == k {
      assert m.children[..k] == n.children[..k];
      SamePrefix(path, n, m, k);
    } else {
      InsertSkipped(path, n, m, k, c, i - 1);
      assert m.children[i] == n.children[i - 1];
    }
  }

  lemma {:induction false} SamePrefix(path: string, n: Node, m: Node, k: nat)
    requires n.Dir? && m.Dir? && k <= |n.children| && k <= |m.children|
    requires n.children[..k] == m.children[..k]
    ensures ChildrenWatch(path, m, k) == ChildrenWatch(path, n, k)
    decreases k
  {
    if k > 0 {
      assert n.children[..k - 1] == m.children[..k - 1];
      assert n.children[k - 1] == n.children[..k][k - 1] == m.children[k - 1];
      SamePrefix(path, n, m, k - 1);
    }
  }

  /**
   * Each directory gets its watch before it is opened: in the calls of a
   * walk, every opendir of a path comes right after the inotify_add_watch of
   * the same path, and the walk starts with an inotify_add_watch.
   */
  lemma {:induction false} WatchBeforeOpen(path: string, n: Node)
    ensures Calls(path, n) != [] && Calls(path, n)[0] == AddWatchCall(path)
    ensures WatchedBeforeOpened(Calls(path, n))
    decreases n, 1, 0
  {
    match n
    case Symlink(_, t) =>
      WatchBeforeOpen(path, t);
    case Dir(_, _, o, cs) =>
      var head := [AddWatchCall(path), OpenDirCall(path)];
      if o {
        ChildrenWatchBeforeOpen(path, n, |cs|);
        OrderedConcat(head, ChildrenCalls(path, n, |cs|));
      }
    case _ =>
  }

  lemma {:induction false} ChildrenWatchBeforeOpen(path: string, n: Node, k: nat)
    requires n.Dir? && k <= |n.children|
    ensures var cc := ChildrenCalls(path, n, k);
      WatchedBeforeOpened(cc) && (cc != [] ==> cc[0].AddWatchCall?)
    decreases n, 0, k
  {
    if k > 0 {
      var c := n.children[k - 1];
      assert c in n.children;
      ChildrenWatchBeforeOpen(path, n, k - 1);
      if !IsDotEntry(c.name) && IsRealDir(c) {
        WatchBeforeOpen(Join(path, c.name), c);
        OrderedConcat(ChildrenCalls(path, n, k - 1), Calls(Join(path, c.name), c));
      }
    }
  }

  lemma OrderedConcat(a: seq<Call>, b: seq<Call>)
    requires WatchedBeforeOpened(a) && WatchedBeforeOpened(b)
    requires b != [] ==> b[0].AddWatchCall?
    ensures WatchedBeforeOpened(a + b)
  {
    forall i | 0 <= i < |a + b| && (a + b)[i].OpenDirCall?
      ensures i > 0 && (a + b)[i - 1] == AddWatchCall((a + b)[i].path)
    {
      if i >= |a| {
        assert (a + b)[i] == b[i - |a|];
        assert i - |a| > 0;
        assert (a + b)[i - 1] == b[i - |a| - 1];
      } else {
        assert (a + b)[i] == a[i];
        assert (a + b)[i - 1] == a[i - 1];
      }
    }
  }
}
