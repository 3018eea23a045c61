/**
 * Display names for repositories found by a bulk scan: the inner helper
 * `resolveProjectName` of `scanAndRegisterProjects` (src/app/actions/project.ts).
 * A name is chosen against the running set of names already taken, by the
 * precedence "base name", then "parent/base", then "base-n" for the least n >= 2.
 */
module ProjectNaming {
  import NodePath

  /** The character of a decimal digit. */
  function Digit(d: nat): (c: char)
    requires d < 10
    ensures '0' <= c <= '9'
  {
    (48 + d) as char
  }

  /** How a template literal prints a non-negative integer: its decimal digits. */
  function DecimalString(n: nat): (s: string)
    ensures 1 <= |s|
    ensures (|s| == 1) == (n < 10)
    decreases n
  {
    if n < 10 then [Digit(n)] else DecimalString(n / 10) + [Digit(n % 10)]
  }

  /** Different numbers print differently. */
  lemma {:induction false} DecimalStringInjective(a: nat, b: nat)
    requires DecimalString(a) == DecimalString(b)
    ensures a == b
    decreases a
  {
    var sa, sb := DecimalString(a), DecimalString(b);
    if a < 10 {
      assert sa == [Digit(a)] && sb == [Digit(b)];
      assert Digit(a) as int == 48 + a && Digit(b) as int == 48 + b;
    } else {
      assert sa == DecimalString(a / 10) + [Digit(a % 10)];
      assert sb == DecimalString(b / 10) + [Digit(b % 10)];
      assert sa[..|sa| - 1] == DecimalString(a / 10);
      assert sb[..|sb| - 1] == DecimalString(b / 10);
      DecimalStringInjective(a / 10, b / 10);
      assert Digit(a % 10) == sa[|sa| - 1] == sb[|sb| - 1] == Digit(b % 10);
      assert Digit(a % 10) as int == 48 + a % 10 && Digit(b % 10) as int == 48 + b % 10;
    }
  }

  /** The fallback name `${baseName}-${counter}`. */
  function Numbered(base: string, n: nat): string
  {
    base + "-" + DecimalString(n)
  }

  /** Every character of a printed counter is a decimal digit. */
  lemma {:induction false} DecimalStringDigits(n: nat)
    ensures forall k :: 0 <= k < |DecimalString(n)| ==> '0' <= DecimalString(n)[k] <= '9'
    decreases n
  {
    if n >= 10 {
      DecimalStringDigits(n / 10);
      var s := DecimalString(n);
      assert s == DecimalString(n / 10) + [Digit(n % 10)];
    }
  }

  /** `base-n` is the base name, a '-', and at least one decimal digit. */
  lemma NumberedShape(base: string, n: nat)
    ensures var r := Numbered(base, n);
      && |r| >= |base| + 2
      && r[..|base|] == base && r[|base|] == '-'
      && (forall k :: |base| < k < |r| ==> '0' <= r[k] <= '9')
  {
    var r := Numbered(base, n);
    DecimalStringDigits(n);
    forall k | |base| < k < |r| ensures '0' <= r[k] <= '9' {
      assert r[k] == DecimalString(n)[k - |base| - 1];
    }
  }

  /** Different counters give different fallback names for one base name. */
  lemma NumberedInjective(base: string, a: nat, b: nat)
    requires Numbered(base, a) == Numbered(base, b)
    ensures a == b
  {
    var prefix := base + "-";
    assert Numbered(base, a) == prefix + DecimalString(a);
    assert Numbered(base, b) == prefix + DecimalString(b);
    assert (prefix + DecimalString(a))[|prefix|..] == DecimalString(a);
    assert (prefix + DecimalString(b))[|prefix|..] == DecimalString(b);
    DecimalStringInjective(a, b);
  }

  /** The fallback names for every counter below `n`. */
  ghost function TakenBelow(base: string, n: nat): set<string>
  {
    set k: nat | k < n :: Numbered(base, k)
  }

  lemma NumberedNotTakenBelow(base: string, n: nat)
    ensures Numbered(base, n) !in TakenBelow(base, n)
    ensures TakenBelow(base, n + 1) == TakenBelow(base, n) + {Numbered(base, n)}
  {
    if Numbered(base, n) in TakenBelow(base, n) {
      var k: nat :| k < n && Numbered(base, k) == Numbered(base, n);
      NumberedInjective(base, k, n);
    }
  }

  /**
   * The least counter `r >= n` whose fallback name is free. It exists
   * because `names` is finite and distinct counters give distinct names.
   */
  function FirstFreeSuffix(names: set<string>, base: string, n: nat): (r: nat)
    ensures n <= r
    ensures Numbered(base, r) !in names
    ensures forall k :: n <= k < r ==> Numbered(base, k) in names
    decreases names - TakenBelow(base, n)
  {
    if Numbered(base, n) !in names then n
    else
      NumberedNotTakenBelow(base, n);
      FirstFreeSuffix(names, base, n + 1)
  }

  /** The name `parent/base` tried second. */
  function CombinedName(repoPath: string): string
  {
    NodePath.BaseName(NodePath.DirName(repoPath)) + "/" + NodePath.BaseName(repoPath)
  }

  /**
   * For a path that ends in two segments `a/b` (neither containing '/'), the
   * second name tried is `a/b`, whatever precedes them.
   */
  lemma CombinedNameOfJoin(d0: string, a: string, b: string)
    requires a != [] && '/' !in a && b != [] && '/' !in b
    ensures CombinedName(d0 + "/" + a + "/" + b) == a + "/" + b
  {
    var d := d0 + "/" + a;
    NodePath.BaseNameOfJoin(d, b);
    assert |d| >= 2;
    NodePath.DirNameOfJoin(d, b);
    NodePath.BaseNameOfJoin(d0, a);
  }

  /** The name `resolveProjectName` picks for `repoPath` against the running set `names`. */
  function ResolvedName(names: set<string>, repoPath: string): (r: string)
    ensures r !in names
  {
    var base := NodePath.BaseName(repoPath);
    if base !in names then base
    else if CombinedName(repoPath) !in names then CombinedName(repoPath)
    else Numbered(base, FirstFreeSuffix(names, base, 2))
  }

  /** `base-n` is the fallback with the least counter n >= 2 that is free in `names`. */
  ghost predicate LeastFreeNumbered(names: set<string>, base: string, name: string)
  {
    exists n: nat ::
      2 <= n && name == Numbered(base, n) && Numbered(base, n) !in names &&
      forall k :: 2 <= k < n ==> Numbered(base, k) in names
  }

  /**
   * `resolveProjectName`: picks a name absent from `names` by precedence and
   * returns the running set with that name added.
   */
  method ResolveProjectName(names: set<string>, repoPath: string) returns (name: string, names': set<string>)
    ensures name !in names && names' == names + {name}
    ensures name == ResolvedName(names, repoPath)
    ensures NodePath.BaseName(repoPath) !in names ==> name == NodePath.BaseName(repoPath)
    ensures NodePath.BaseName(repoPath) in names && CombinedName(repoPath) !in names ==>
      name == CombinedName(repoPath)
    ensures NodePath.BaseName(repoPath) in names && CombinedName(repoPath) in names ==>
      LeastFreeNumbered(names, NodePath.BaseName(repoPath), name)
  {
    var baseName := NodePath.BaseName(repoPath);
    if baseName !in names {
      names' := names + {baseName};
      return baseName, names';
    }

    var parentName := NodePath.BaseName(NodePath.DirName(repoPath));
    var combinedName := parentName + "/" + baseName;
    if combinedName !in names {
      names' := names + {combinedName};
      return combinedName, names';
    }

    var counter := 2;
    while Numbered(baseName, counter) in names
      invariant 2 <= counter
      invariant forall k :: 2 <= k < counter ==> Numbered(baseName, k) in names
      decreases names - TakenBelow(baseName, counter)
    {
      NumberedNotTakenBelow(baseName, counter);
      counter := counter + 1;
    }
    name := Numbered(baseName, counter);
    names' := names + {name};
  }

  /** `/a/b` has base name `b`, directory `/a` and combined name `a/b`. */
  lemma TwoSegmentPath(a: char, b: char)
    requires a != '/' && b != '/'
    ensures NodePath.BaseName(['/', a, '/', b]) == [b]
    ensures NodePath.DirName(['/', a, '/', b]) == ['/', a]
    ensures CombinedName(['/', a, '/', b]) == [a, '/', b]
  {
    assert ['/', a, '/', b] == "" + "/" + [a] + "/" + [b];
    assert ['/', a] == "" + "/" + [a];
    NodePath.DirNameOfJoin("" + "/" + [a], [b]);
    CombinedNameOfJoin("", [a], [b]);
  }

  /** The precedence on `/w/x` as the running set fills up. */
  lemma NamingExamples()
    ensures ResolvedName({}, "/w/x") == "x"
    ensures ResolvedName({"x"}, "/w/x") == "w/x"
    ensures ResolvedName({"x", "w/x"}, "/w/x") == "x-2"
    ensures ResolvedName({"x", "w/x", "x-2"}, "/w/x") == "x-3"
  {
    TwoSegmentPath('w', 'x');
    assert DecimalString(2) == "2" && DecimalString(3) == "3";
    assert Numbered("x", 2) == "x-2" && Numbered("x", 3) == "x-3";
    assert FirstFreeSuffix({"x", "w/x"}, "x", 2) == 2;
    assert FirstFreeSuffix({"x", "w/x", "x-2"}, "x", 2) == 3;
  }
}
