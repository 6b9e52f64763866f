// C-string handling used throughout watchsync: the `trim` routine, the
// bounded copies done with `strncpy`, and the way `fgets` cuts a stream into
// the "lines" the config parser and the report logger see.

module Strings {

  const NUL: char := '\0'

  datatype Option<T> = None | Some(value: T)

  /** Characters `trim` skips at the front of a string. */
  predicate IsLeadBlank(c: char) {
    c == ' ' || c == '\t'
  }

  /** Characters `trim` zeroes at the back of a string. */
  predicate IsTrailBlank(c: char) {
    c == '\n' || c == '\r' || c == ' ' || c == '\t'
  }

  /** Number of leading spaces and tabs of `s`. */
  function LeadCount(s: string): (k: nat)
    ensures k <= |s|
    ensures forall i :: 0 <= i < k ==> IsLeadBlank(s[i])
    ensures k < |s| ==> !IsLeadBlank(s[k])
  {
    if s != [] && IsLeadBlank(s[0]) then 1 + LeadCount(s[1..]) else 0
  }

  /** Length of `s` once its trailing newlines, returns, spaces and tabs are dropped. */
  function KeepCount(s: string): (k: nat)
    ensures k <= |s|
    ensures forall i :: k <= i < |s| ==> IsTrailBlank(s[i])
    ensures k > 0 ==> !IsTrailBlank(s[k - 1])
  {
    if s != [] && IsTrailBlank(s[|s| - 1]) then KeepCount(s[..|s| - 1]) else |s|
  }

  /** A count of leading blanks is determined by the two facts LeadCount promises. */
  lemma LeadCountUnique(s: string, p: nat)
    requires p <= |s|
    requires forall i :: 0 <= i < p ==> IsLeadBlank(s[i])
    requires p < |s| ==> !IsLeadBlank(s[p])
    ensures p == LeadCount(s)
  {
  }

  /** Likewise for the length KeepCount keeps. */
  lemma KeepCountUnique(s: string, m: nat)
    requires m <= |s|
    requires forall i :: m <= i < |s| ==> IsTrailBlank(s[i])
    requires m > 0 ==> !IsTrailBlank(s[m - 1])
    ensures m == KeepCount(s)
  {
  }

  /**
   * The string `trim` leaves behind: leading spaces and tabs removed, then
   * trailing newlines, returns, spaces and tabs removed.
   */
  function Trimmed(s: string): string {
    var t := s[LeadCount(s)..];
    t[..KeepCount(t)]
  }

  /**
   * The trimmed string is the contiguous piece of `s` that starts after the
   * leading blanks; what is cut off at the end is blank, and what remains
   * neither starts with a space or tab nor ends with a trailing blank.
   */
  lemma TrimmedInfix(s: string)
    ensures var r := Trimmed(s);
      && LeadCount(s) + |r| <= |s|
      && r == s[LeadCount(s)..LeadCount(s) + |r|]
      && (forall i :: LeadCount(s) + |r| <= i < |s| ==> IsTrailBlank(s[i]))
      && (r != [] ==> !IsLeadBlank(r[0]) && !IsTrailBlank(r[|r| - 1]))
  {
  }

  /** Trimming an already trimmed string changes nothing. */
  lemma TrimmedIdempotent(s: string)
    ensures Trimmed(Trimmed(s)) == Trimmed(s)
  {
    var r := Trimmed(s);
    LeadCountUnique(r, 0);
    KeepCountUnique(r, |r|);
  }

  /** The `while (*p == ' ' || *p == '\t') p++;` scan at the start of `trim`. */
  method SkipBlanks(a: array<char>, n: nat) returns (p: nat)
    requires n < a.Length && a[n] == NUL
    ensures p == LeadCount(a[..n])
  {
    ghost var s := a[..n];
    p := 0;
    while a[p] == ' ' || a[p] == '\t'
      invariant p <= n
      invariant forall i :: 0 <= i < p ==> IsLeadBlank(s[i])
      decreases n - p
    {
      p := p + 1;
    }
    LeadCountUnique(s, p);
  }

  /** `memmove(a, a + p, count)`: the `count` characters from `p` on move to the front. */
  method MoveToFront(a: array<char>, p: nat, count: nat)
    requires p + count <= a.Length
    modifies a
    ensures a[..count] == old(a[p..p + count])
    ensures a[count..] == old(a[count..])
  {
    var k := 0;
    while k < count
      invariant k <= count
      invariant forall i :: 0 <= i < k ==> a[i] == old(a[p + i])
      invariant forall i :: k <= i < a.Length ==> a[i] == old(a[i])
    {
      a[k] := a[p + k];
      k := k + 1;
    }
  }

  /** The backward loop of `trim` that overwrites trailing blanks of `a[..len]` with NUL. */
  method ZeroTrailing(a: array<char>, len: nat) returns (m: nat)
    requires len < a.Length && a[len] == NUL
    modifies a
    ensures m == KeepCount(old(a[..len]))
    ensures a[..m] == old(a[..m]) && a[m] == NUL
  {
    ghost var t := a[..len];
    var i: int := len - 1;
    while i >= 0 && (a[i] == '\n' || a[i] == '\r' || a[i] == ' ' || a[i] == '\t')
      invariant -1 <= i < len
      invariant a[..i + 1] == t[..i + 1]
      invariant forall j :: i < j <= len ==> a[j] == NUL
      invariant forall j :: i < j < len ==> IsTrailBlank(t[j])
    {
      a[i] := NUL;
      i := i - 1;
    }
    m := i + 1;
    KeepCountUnique(t, m);
  }

  /**
   * `trim` on a NUL-terminated buffer whose string is `a[..n]`: the leading
   * blanks are skipped, the rest (with its NUL) is moved to the front as
   * `memmove` does, and trailing blanks are overwritten with NUL from the end.
   * Afterwards the buffer holds the string Trimmed(old string) followed by NUL.
   */
  method Trim(a: array<char>, n: nat) returns (m: nat)
    requires n < a.Length && a[n] == NUL
    requires forall i :: 0 <= i < n ==> a[i] != NUL
    modifies a
    ensures m <= n && a[m] == NUL
    ensures a[..m] == Trimmed(old(a[..n]))
  {
    ghost var s := a[..n];
    var p := SkipBlanks(a, n);
    ghost var t := s[p..];
    MoveToFront(a, p, n - p + 1);
    assert a[..n - p] == t;
    m := ZeroTrailing(a, n - p);
  }

  /** What `strncpy(dst, src, size - 1)` leaves in a zeroed field of `size` bytes. */
  function Truncate(s: string, size: nat): (r: string)
    requires size >= 1
    ensures |r| < size && |r| <= |s| && r == s[..|r|]
    ensures |s| < size ==> r == s
    ensures |s| >= size ==> |r| == size - 1
  {
    if |s| < size then s else s[..size - 1]
  }

  /** The C string a buffer denotes: everything before its first NUL. */
  function UntilNul(s: string): (r: string)
    ensures |r| <= |s| && r == s[..|r|]
    ensures NUL !in r
    ensures |r| < |s| ==> s[|r|] == NUL
  {
    if s == [] || s[0] == NUL then [] else [s[0]] + UntilNul(s[1..])
  }

  /** Length of the first line of `s`, its newline included. */
  function LineLength(s: string): (k: nat)
    requires s != []
    ensures 1 <= k <= |s|
  {
    if s[0] == '\n' || |s| == 1 then 1 else 1 + LineLength(s[1..])
  }

  /** The first line holds no newline before its last character, and ends in one unless it ends the stream. */
  lemma {:induction false} LineLengthShape(s: string)
    requires s != []
    ensures var k := LineLength(s);
      && (forall i :: 0 <= i < k - 1 ==> s[i] != '\n')
      && (k < |s| ==> s[k - 1] == '\n')
  {
    if !(s[0] == '\n' || |s| == 1) {
      LineLengthShape(s[1..]);
    }
  }

  /** How many characters one `fgets(buf, size, f)` takes from the front of a nonempty stream. */
  function ChunkLength(s: string, size: nat): nat
    requires size >= 2 && s != []
  {
    var k := LineLength(s);
    if k < size - 1 then k else size - 1
  }

  /**
   * The strings a `while (fgets(buf, size, f))` loop receives from the stream
   * `s`: each is at most `size - 1` characters long and stops after the first
   * newline; the loop ends, without a last empty string, at end of file.
   */
  function FgetsLines(s: string, size: nat): seq<string>
    requires size >= 2
    decreases |s|
  {
    if s == [] then []
    else
      var k := ChunkLength(s, size);
      [s[..k]] + FgetsLines(s[k..], size)
  }

  function Concat(lines: seq<string>): string {
    if lines == [] then [] else lines[0] + Concat(lines[1..])
  }

  /** The pieces fgets returns are the whole stream, in order, with nothing lost. */
  lemma {:induction false} FgetsLinesCover(s: string, size: nat)
    requires size >= 2
    ensures Concat(FgetsLines(s, size)) == s
    decreases |s|
  {
    if s != [] {
      var k := ChunkLength(s, size);
      FgetsLinesCover(s[k..], size);
      ConcatSplit(s, k, FgetsLines(s[k..], size));
    }
  }

  /** A first piece `s[..k]` followed by pieces that make up `s[k..]` make up `s`. */
  lemma ConcatSplit(s: string, k: nat, rest: seq<string>)
    requires k <= |s| && Concat(rest) == s[k..]
    ensures Concat([s[..k]] + rest) == s
  {
    ConcatCons(s[..k], rest);
    assert s[..k] + s[k..] == s;
  }

  lemma ConcatCons(line: string, rest: seq<string>)
    ensures Concat([line] + rest) == line + Concat(rest)
  {
    assert ([line] + rest)[1..] == rest;
  }

  /**
   * Every piece is nonempty and shorter than the buffer, and a newline can
   * only be its last character; a piece that does not end in a newline either
   * filled the buffer or ends the stream.
   */
  lemma {:induction false} FgetsLinesShape(s: string, size: nat, j: nat)
    requires size >= 2
    requires j < |FgetsLines(s, size)|
    ensures var line := FgetsLines(s, size)[j];
      && 1 <= |line| <= size - 1
      && (forall i :: 0 <= i < |line| - 1 ==> line[i] != '\n')
      && (line[|line| - 1] != '\n' && j + 1 < |FgetsLines(s, size)| ==> |line| == size - 1)
    decreases |s|
  {
    var k := ChunkLength(s, size);
    LineLengthShape(s);
    if j > 0 {
      FgetsLinesShape(s[k..], size, j - 1);
      assert FgetsLines(s, size)[j] == FgetsLines(s[k..], size)[j - 1];
    } else if 1 < |FgetsLines(s, size)| {
      assert s[k..] != [];
    }
  }
}
