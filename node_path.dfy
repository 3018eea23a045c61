/**
 * The two functions of Node's POSIX `path` module that project naming uses:
 * `path.basename(p)` and `path.dirname(p)`, written after Node's own
 * algorithm so that trailing and doubled '/' characters are handled as Node
 * handles them.
 */
module NodePath {

  /** Length of `p[..end]` once its trailing '/' characters are dropped. */
  function TrimmedEnd(p: string, end: nat): (e: nat)
    requires end <= |p|
    ensures e <= end
  {
    if end > 0 && p[end - 1] == '/' then TrimmedEnd(p, end - 1) else end
  }

  /** `TrimmedEnd` drops exactly the trailing run of '/': what it drops is all '/', and what is left does not end in one. */
  lemma {:induction false} TrimmedEndDropsSlashes(p: string, end: nat)
    requires end <= |p|
    ensures var e := TrimmedEnd(p, end);
      && (forall k :: e <= k < end ==> p[k] == '/')
      && (e > 0 ==> p[e - 1] != '/')
    decreases end
  {
    if end > 0 && p[end - 1] == '/' {
      TrimmedEndDropsSlashes(p, end - 1);
    }
  }

  /** Index just past the last '/' of `p[..end]`, or 0 when there is none. */
  function AfterLastSlash(p: string, end: nat): (i: nat)
    requires end <= |p|
    ensures i <= end
  {
    if end == 0 then 0 else if p[end - 1] == '/' then end else AfterLastSlash(p, end - 1)
  }

  /** `AfterLastSlash` starts the last segment: no '/' from it to `end`, and a '/' just before it unless it is 0. */
  lemma {:induction false} AfterLastSlashFindsSegment(p: string, end: nat)
    requires end <= |p|
    ensures var i := AfterLastSlash(p, end);
      && (forall k :: i <= k < end ==> p[k] != '/')
      && (i > 0 ==> p[i - 1] == '/')
    decreases end
  {
    if end > 0 && p[end - 1] != '/' {
      AfterLastSlashFindsSegment(p, end - 1);
    }
  }

  /** `path.basename(p)`: the last segment once trailing '/' are dropped; "" when nothing is left. */
  function BaseName(p: string): (b: string)
  {
    var end := TrimmedEnd(p, |p|);
    p[AfterLastSlash(p, end)..end]
  }

  /** A base name is a single segment: it contains no '/'. */
  lemma BaseNameHasNoSlash(p: string)
    ensures '/' !in BaseName(p)
  {
    var end := TrimmedEnd(p, |p|);
    var start := AfterLastSlash(p, end);
    AfterLastSlashFindsSegment(p, end);
    assert forall k :: 0 <= k < end - start ==> BaseName(p)[k] == p[start + k];
  }

  /** A name that ends in a segment without '/' has that segment as its base name. */
  lemma BaseNameOfJoin(d: string, b: string)
    requires b != [] && '/' !in b
    ensures BaseName(d + "/" + b) == b
  {
    var p := d + "/" + b;
    assert p[|p| - 1] == b[|b| - 1];
    assert TrimmedEnd(p, |p|) == |p|;
    assert p[|d|] == '/';
    forall k | |d| + 1 <= k < |p| ensures p[k] != '/' {
      assert p[k] == b[k - |d| - 1];
    }
    AfterLastSlashAt(p, |p|, |d|);
    assert p[|d| + 1..] == b;
  }

  /** The last '/' of `p[..end]` is at `j` when none follows it. */
  lemma {:induction false} AfterLastSlashAt(p: string, end: nat, j: nat)
    requires j < end <= |p| && p[j] == '/'
    requires forall k :: j < k < end ==> p[k] != '/'
    ensures AfterLastSlash(p, end) == j + 1
    decreases end
  {
    if end - 1 != j {
      AfterLastSlashAt(p, end - 1, j);
    }
  }

  /** Trailing '/' characters do not change the base name. */
  lemma BaseNameIgnoresTrailingSlash(p: string)
    ensures BaseName(p + "/") == BaseName(p)
  {
    var q := p + "/";
    assert TrimmedEnd(q, |q|) == TrimmedEnd(q, |p|);
    TrimmedEndOfPrefix(p, q, |p|);
    AfterLastSlashOfPrefix(p, q, TrimmedEnd(p, |p|));
  }

  lemma {:induction false} TrimmedEndOfPrefix(p: string, q: string, end: nat)
    requires end <= |p| <= |q| && p == q[..|p|]
    ensures TrimmedEnd(q, end) == TrimmedEnd(p, end)
    decreases end
  {
    if end > 0 {
      assert q[end - 1] == p[end - 1];
      TrimmedEndOfPrefix(p, q, end - 1);
    }
  }

  lemma {:induction false} AfterLastSlashOfPrefix(p: string, q: string, end: nat)
    requires end <= |p| <= |q| && p == q[..|p|]
    ensures AfterLastSlash(q, end) == AfterLastSlash(p, end)
    decreases end
  {
    if end > 0 {
      assert q[end - 1] == p[end - 1];
      AfterLastSlashOfPrefix(p, q, end - 1);
    }
  }

  /**
   * Node's scan for the end of the directory part: moving left from index `i`
   * (index 0 is never looked at), the first '/' met after at least one
   * non-'/' character; -1 when there is none.
   */
  function DirEnd(p: string, i: int, matchedSlash: bool): (e: int)
    requires i < |p|
    ensures e == -1 || (1 <= e <= i && p[e] == '/')
    decreases i + 1
  {
    if i < 1 then -1
    else if p[i] == '/' then (if !matchedSlash then i else DirEnd(p, i - 1, true))
    else DirEnd(p, i - 1, false)
  }

  /** Once a non-'/' character has been met, the scan stops at the nearest '/' to its left. */
  lemma {:induction false} DirEndFindsSegmentStart(p: string, i: int, j: int)
    requires 1 <= j <= i < |p| && p[j] == '/'
    requires forall k :: j < k <= i ==> p[k] != '/'
    ensures DirEnd(p, i, false) == j
    decreases i
  {
    if i != j {
      DirEndFindsSegmentStart(p, i - 1, j);
    }
  }

  /** Without a '/' after index 0, there is no directory part. */
  lemma {:induction false} DirEndWithoutSlash(p: string, i: int, matchedSlash: bool)
    requires i < |p|
    requires forall k :: 1 <= k <= i ==> p[k] != '/'
    ensures DirEnd(p, i, matchedSlash) == -1
    decreases i + 1
  {
    if i >= 1 {
      DirEndWithoutSlash(p, i - 1, false);
    }
  }

  /** Before any non-'/' character has been met, trailing '/' characters are passed over. */
  lemma {:induction false} DirEndSkipsTrailingSlashes(p: string, i: int, t: int)
    requires 0 <= t <= i < |p|
    requires forall k :: t < k <= i ==> p[k] == '/'
    ensures DirEnd(p, i, true) == DirEnd(p, t, true)
    decreases i
  {
    if i != t {
      DirEndSkipsTrailingSlashes(p, i - 1, t);
    }
  }

  lemma {:induction false} DirEndOfPrefix(p: string, q: string, i: int, matchedSlash: bool)
    requires i < |p| <= |q| && p == q[..|p|]
    ensures DirEnd(q, i, matchedSlash) == DirEnd(p, i, matchedSlash)
    decreases i + 1
  {
    if i >= 1 {
      assert q[i] == p[i];
      DirEndOfPrefix(p, q, i - 1, true);
      DirEndOfPrefix(p, q, i - 1, false);
    }
  }

  /** `path.dirname(p)`: "." for a relative name without '/', "/" or "//" at the root. */
  function DirName(p: string): (d: string)
    ensures d == "." || d == "/" || d == "//" || (|d| < |p| && d == p[..|d|])
  {
    if |p| == 0 then "."
    else
      var end := DirEnd(p, |p| - 1, true);
      if end == -1 then (if p[0] == '/' then "/" else ".")
      else if p[0] == '/' && end == 1 then "//"
      else p[..end]
  }

  /** The directory of `d/b`, for a last segment `b` without '/', is `d` (unless `d` is the root). */
  lemma DirNameOfJoin(d: string, b: string)
    requires d != [] && d != "/" && b != [] && '/' !in b
    ensures DirName(d + "/" + b) == d
  {
    var p := d + "/" + b;
    assert p[|p| - 1] == b[|b| - 1];
    assert p[|d|] == '/';
    forall k | |d| < k <= |p| - 2 ensures p[k] != '/' {
      assert p[k] == b[k - |d| - 1];
    }
    DirEndFindsSegmentStart(p, |p| - 2, |d|);
    assert DirEnd(p, |p| - 1, true) == |d|;
    assert p[..|d|] == d;
  }

  /** A trailing '/' does not change the directory of a non-empty name. */
  lemma DirNameIgnoresTrailingSlash(p: string)
    requires p != []
    ensures DirName(p + "/") == DirName(p)
  {
    var q := p + "/";
    assert q[|p|] == '/';
    DirEndSkipsTrailingSlashes(q, |p|, |p| - 1);
    assert q[..|p|] == p;
    DirEndOfPrefix(p, q, |p| - 1, true);
    assert q[0] == p[0];
    var end := DirEnd(p, |p| - 1, true);
    if end >= 0 {
      assert q[..end] == p[..end];
    }
  }

  /** A name with no '/' at all has directory ".". */
  lemma DirNameOfSegment(b: string)
    requires b != [] && '/' !in b
    ensures DirName(b) == "."
  {
    forall k | 1 <= k <= |b| - 1 ensures b[k] != '/' {
      assert b[k] in b;
    }
    DirEndWithoutSlash(b, |b| - 1, true);
    assert b[0] in b;
  }
}
