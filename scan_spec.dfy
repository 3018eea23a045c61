/**
 * What `scanAndRegisterProjects` (src/app/actions/project.ts) computes, stated
 * as a function of its inputs: the scanned paths in order, and the answers of
 * the two per-item calls that may throw (`getDefaultBranch` and `repo.save`).
 * `ScanUpTo(inp, start, k)` is the running state after the first `k` paths.
 */
module ScanSpec {
  import opened Wrappers
  import opened Projects
  import ProjectNaming

  /** The `ScanResult` of the server action. */
  datatype ScanResult = ScanResult(registered: seq<string>, skipped: seq<string>, errors: seq<string>)

  /**
   * The inputs of one bulk scan: the host, the paths `scanGitRepos` returned,
   * and for the i-th path what `getDefaultBranch` and `repo.save` do if called.
   */
  datatype ScanInput = ScanInput(
    sshHost: Option<string>,
    repoPaths: seq<string>,
    branchLookups: seq<Result<string, Thrown>>,
    saves: seq<SaveOutcome>)
  {
    ghost predicate WellFormed()
    {
      |branchLookups| == |repoPaths| && |saves| == |repoPaths|
    }
  }

  /** The loop's running state: key set, name set, result lists, and the rows saved so far. */
  datatype ScanState = ScanState(
    keys: set<string>,
    names: set<string>,
    result: ScanResult,
    added: seq<Project>,
    nextId: nat)

  const EmptyResult := ScanResult([], [], [])

  /** The state before the loop, built from the projects already stored. */
  ghost function Start(existing: seq<Project>, nextId: nat): ScanState
  {
    ScanState(Keys(existing), Names(existing), EmptyResult, [], nextId)
  }

  /** `error.message`, or the fixed text used when something other than an `Error` was thrown. */
  function ThrownText(t: Thrown): string
  {
    match t
    case ErrorObject(message) => message
    case NonError => "등록 실패"
  }

  /** The entry `${repoPath}: ${message}` appended to `errors`. */
  function ErrorEntry(repoPath: string, t: Thrown): string
  {
    repoPath + ": " + ThrownText(t)
  }

  /** One iteration of the loop, for the i-th path. */
  ghost function Step(inp: ScanInput, st: ScanState, i: nat): ScanState
    requires inp.WellFormed() && i < |inp.repoPaths|
  {
    var repoPath := inp.repoPaths[i];
    var key := PathKey(inp.sshHost, repoPath);
    if key in st.keys then
      st.(result := st.result.(skipped := st.result.skipped + [repoPath]))
    else
      match inp.branchLookups[i]
      case Failure(t) =>
        st.(result := st.result.(errors := st.result.errors + [ErrorEntry(repoPath, t)]))
      case Success(branch) =>
        var name := ProjectNaming.ResolvedName(st.names, repoPath);
        match inp.saves[i]
        case SaveThrew(t) =>
          st.(names := st.names + {name},
              result := st.result.(errors := st.result.errors + [ErrorEntry(repoPath, t)]))
        case Saved =>
          ScanState(
            st.keys + {key},
            st.names + {name},
            st.result.(registered := st.result.registered + [name]),
            st.added + [Project(st.nextId, name, repoPath, branch, NormalizeHost(inp.sshHost))],
            st.nextId + 1)
  }

  /** The state after the first `k` paths. */
  ghost function ScanUpTo(inp: ScanInput, start: ScanState, k: nat): ScanState
    requires inp.WellFormed() && k <= |inp.repoPaths|
    decreases k
  {
    if k == 0 then start else Step(inp, ScanUpTo(inp, start, k - 1), k - 1)
  }

  /** The names of the rows, in order. */
  function NameList(ps: seq<Project>): (r: seq<string>)
  {
    seq(|ps|, j requires 0 <= j < |ps| => ps[j].name)
  }

  /** Relation between a running state and the projects stored before the scan began. */
  ghost predicate Tracks(existing: seq<Project>, st: ScanState)
  {
    && st.keys == Keys(existing) + Keys(st.added)
    && Names(existing) + Names(st.added) <= st.names
    && Names(existing) !! Names(st.added)
    && NameList(st.added) == st.result.registered
  }

  lemma AppendFacts(ps: seq<Project>, p: Project)
    ensures Keys(ps + [p]) == Keys(ps) + {ProjectKey(p)}
    ensures Names(ps + [p]) == Names(ps) + {p.name}
    ensures NameList(ps + [p]) == NameList(ps) + [p.name]
  {
    assert forall q :: q in ps + [p] <==> q in ps || q == p;
  }

  lemma ConcatFacts(a: seq<Project>, b: seq<Project>)
    ensures Keys(a + b) == Keys(a) + Keys(b)
    ensures Names(a + b) == Names(a) + Names(b)
  {
    assert forall q :: q in a + b <==> q in a || q in b;
  }

  /** Each step keeps the running sets in line with what has been saved. */
  lemma StepTracks(inp: ScanInput, existing: seq<Project>, st: ScanState, i: nat)
    requires inp.WellFormed() && i < |inp.repoPaths|
    requires Tracks(existing, st)
    ensures Tracks(existing, Step(inp, st, i))
  {
    var repoPath := inp.repoPaths[i];
    var next := Step(inp, st, i);
    if PathKey(inp.sshHost, repoPath) in st.keys || inp.branchLookups[i].Failure? {
      assert next.keys == st.keys && next.names == st.names && next.added == st.added;
      assert next.result.registered == st.result.registered;
    } else if inp.saves[i].SaveThrew? {
      assert next.keys == st.keys && st.names <= next.names && next.added == st.added;
      assert next.result.registered == st.result.registered;
    } else {
      SavedStepTracks(inp, existing, st, i);
    }
  }

  /** The step that saves a row: its key, name and position all line up. */
  lemma SavedStepTracks(inp: ScanInput, existing: seq<Project>, st: ScanState, i: nat)
    requires inp.WellFormed() && i < |inp.repoPaths|
    requires Tracks(existing, st)
    requires PathKey(inp.sshHost, inp.repoPaths[i]) !in st.keys
    requires inp.branchLookups[i].Success? && inp.saves[i].Saved?
    ensures Tracks(existing, Step(inp, st, i))
  {
    var repoPath := inp.repoPaths[i];
    var key := PathKey(inp.sshHost, repoPath);
    var name := ProjectNaming.ResolvedName(st.names, repoPath);
    var p := Project(st.nextId, name, repoPath, inp.branchLookups[i].value, NormalizeHost(inp.sshHost));
    assert Step(inp, st, i) == ScanState(st.keys + {key}, st.names + {name},
      st.result.(registered := st.result.registered + [name]), st.added + [p], st.nextId + 1);
    AppendFacts(st.added, p);
    PathKeyOfNormalizedHost(inp.sshHost, repoPath);
  }

  lemma StartTracks(existing: seq<Project>, firstId: nat)
    ensures Tracks(existing, Start(existing, firstId))
  {
    assert Keys([]) == {} && Names([]) == {};
  }

  lemma {:induction false} ScanTracks(inp: ScanInput, existing: seq<Project>, firstId: nat, k: nat)
    requires inp.WellFormed() && k <= |inp.repoPaths|
    ensures Tracks(existing, ScanUpTo(inp, Start(existing, firstId), k))
    decreases k
  {
    if k == 0 {
      StartTracks(existing, firstId);
    } else {
      ScanTracks(inp, existing, firstId, k - 1);
      StepTracks(inp, existing, ScanUpTo(inp, Start(existing, firstId), k - 1), k - 1);
    }
  }

  /** The running name set covers the names of every row stored so far. */
  lemma ScanNamesCoverStore(inp: ScanInput, existing: seq<Project>, firstId: nat, k: nat)
    requires inp.WellFormed() && k <= |inp.repoPaths|
    ensures var st := ScanUpTo(inp, Start(existing, firstId), k);
      Names(existing + st.added) <= st.names
  {
    var st := ScanUpTo(inp, Start(existing, firstId), k);
    ScanTracks(inp, existing, firstId, k);
    ConcatFacts(existing, st.added);
  }

  /** Every scanned path is counted exactly once, as registered, skipped or failed. */
  lemma {:induction false} ScanAccountsForEveryPath(inp: ScanInput, existing: seq<Project>, firstId: nat, k: nat)
    requires inp.WellFormed() && k <= |inp.repoPaths|
    ensures var r := ScanUpTo(inp, Start(existing, firstId), k).result;
      |r.registered| + |r.skipped| + |r.errors| == k
    decreases k
  {
    if k > 0 {
      ScanAccountsForEveryPath(inp, existing, firstId, k - 1);
    }
  }

  /**
   * One step files its path in exactly one list: `skipped` exactly when the key
   * was already taken, `registered` exactly when both calls succeeded, and
   * `errors` otherwise. The other two lists are left as they were.
   */
  lemma StepFilesPathOnce(inp: ScanInput, st: ScanState, i: nat)
    requires inp.WellFormed() && i < |inp.repoPaths|
    ensures var r, r' := st.result, Step(inp, st, i).result;
      var path, taken := inp.repoPaths[i], PathKey(inp.sshHost, inp.repoPaths[i]) in st.keys;
      var saved := !taken && inp.branchLookups[i].Success? && inp.saves[i].Saved?;
      && (taken <==> r' == r.(skipped := r.skipped + [path]))
      && (saved <==> r' == r.(registered := r.registered + [ProjectNaming.ResolvedName(st.names, path)]))
      && (!taken && !saved <==> exists t :: r' == r.(errors := r.errors + [ErrorEntry(path, t)]))
  {
    var r, r' := st.result, Step(inp, st, i).result;
    var path := inp.repoPaths[i];
    if PathKey(inp.sshHost, path) !in st.keys {
      match inp.branchLookups[i]
      case Failure(t) =>
        assert r' == r.(errors := r.errors + [ErrorEntry(path, t)]);
      case Success(_) =>
        match inp.saves[i]
        case SaveThrew(t) =>
          assert r' == r.(errors := r.errors + [ErrorEntry(path, t)]);
        case Saved =>
    }
  }

  /** The entry for a failed path begins with that path, so every error names the repository it concerns. */
  lemma ErrorEntryNamesPath(repoPath: string, t: Thrown)
    ensures var e := ErrorEntry(repoPath, t);
      && |e| >= |repoPath| + 2
      && e[..|repoPath|] == repoPath
      && e[|repoPath|..|repoPath| + 2] == ": "
      && (t.NonError? ==> e[|repoPath| + 2..] == "등록 실패")
      && (t.ErrorObject? ==> e[|repoPath| + 2..] == t.message)
  {
    var e := ErrorEntry(repoPath, t);
    assert e == repoPath + ": " + ThrownText(t);
  }

  /**
   * Results are only ever appended to: the lists, saved rows and running sets
   * after `j` paths are prefixes (or subsets) of those after `k >= j` paths.
   */
  lemma {:induction false} ScanOnlyAppends(inp: ScanInput, start: ScanState, j: nat, k: nat)
    requires inp.WellFormed() && j <= k <= |inp.repoPaths|
    ensures var a, b := ScanUpTo(inp, start, j), ScanUpTo(inp, start, k);
      && a.result.registered <= b.result.registered
      && a.result.skipped <= b.result.skipped
      && a.result.errors <= b.result.errors
      && a.added <= b.added
      && a.keys <= b.keys && a.names <= b.names
      && a.nextId <= b.nextId
    decreases k
  {
    if j < k {
      ScanOnlyAppends(inp, start, j, k - 1);
      StepOnlyAppends(inp, ScanUpTo(inp, start, k - 1), k - 1);
    }
  }

  /** One step only appends to the lists and saved rows and only adds to the running sets. */
  lemma StepOnlyAppends(inp: ScanInput, st: ScanState, i: nat)
    requires inp.WellFormed() && i < |inp.repoPaths|
    ensures var b := Step(inp, st, i);
      && st.result.registered <= b.result.registered
      && st.result.skipped <= b.result.skipped
      && st.result.errors <= b.result.errors
      && st.added <= b.added
      && st.keys <= b.keys && st.names <= b.names
      && st.nextId <= b.nextId
  {
  }

  /** A step adds at most one row, whose name no earlier row has. */
  lemma StepKeepsNamesDistinct(inp: ScanInput, existing: seq<Project>, st: ScanState, i: nat)
    requires inp.WellFormed() && i < |inp.repoPaths|
    requires Tracks(existing, st) && DistinctNames(st.added)
    ensures DistinctNames(Step(inp, st, i).added)
  {
    var repoPath := inp.repoPaths[i];
    if PathKey(inp.sshHost, repoPath) !in st.keys && inp.branchLookups[i].Success? && inp.saves[i].Saved? {
      var name := ProjectNaming.ResolvedName(st.names, repoPath);
      var p := Project(st.nextId, name, repoPath, inp.branchLookups[i].value, NormalizeHost(inp.sshHost));
      assert Step(inp, st, i).added == st.added + [p];
      forall j | 0 <= j < |st.added| ensures st.added[j].name != name {
        assert st.added[j] in st.added;
      }
    } else {
      assert Step(inp, st, i).added == st.added;
    }
  }

  /** The rows saved by a scan have pairwise distinct names. */
  lemma {:induction false} ScanAddsDistinctNames(inp: ScanInput, existing: seq<Project>, firstId: nat, k: nat)
    requires inp.WellFormed() && k <= |inp.repoPaths|
    ensures DistinctNames(ScanUpTo(inp, Start(existing, firstId), k).added)
    decreases k
  {
    if k > 0 {
      ScanAddsDistinctNames(inp, existing, firstId, k - 1);
      ScanTracks(inp, existing, firstId, k - 1);
      StepKeepsNamesDistinct(inp, existing, ScanUpTo(inp, Start(existing, firstId), k - 1), k - 1);
    }
  }

  /**
   * Names registered by one scan are pairwise distinct and distinct from the
   * names of the projects stored before it; and each registered name is the
   * name of the row saved at the same position.
   */
  lemma ScanRegistersFreshNames(inp: ScanInput, existing: seq<Project>, firstId: nat)
    requires inp.WellFormed()
    ensures var st := ScanUpTo(inp, Start(existing, firstId), |inp.repoPaths|);
      && (forall a, b :: 0 <= a < b < |st.result.registered| ==> st.result.registered[a] != st.result.registered[b])
      && (forall a :: 0 <= a < |st.result.registered| ==> st.result.registered[a] !in Names(existing))
      && |st.added| == |st.result.registered|
      && (forall a :: 0 <= a < |st.added| ==> st.added[a].name == st.result.registered[a])
  {
    var st := ScanUpTo(inp, Start(existing, firstId), |inp.repoPaths|);
    ScanTracks(inp, existing, firstId, |inp.repoPaths|);
    ScanAddsDistinctNames(inp, existing, firstId, |inp.repoPaths|);
    assert |st.added| == |NameList(st.added)|;
    forall a | 0 <= a < |st.added| ensures st.result.registered[a] !in Names(existing) {
      assert st.added[a] in st.added;
      assert NameList(st.added)[a] == st.added[a].name;
    }
  }

  /** Saving the rows of a scan keeps the store's names unique. */
  lemma ScanKeepsNamesDistinct(inp: ScanInput, existing: seq<Project>, firstId: nat)
    requires inp.WellFormed() && DistinctNames(existing)
    ensures DistinctNames(existing + ScanUpTo(inp, Start(existing, firstId), |inp.repoPaths|).added)
  {
    var st := ScanUpTo(inp, Start(existing, firstId), |inp.repoPaths|);
    ScanTracks(inp, existing, firstId, |inp.repoPaths|);
    ScanAddsDistinctNames(inp, existing, firstId, |inp.repoPaths|);
    var all := existing + st.added;
    forall a, b | 0 <= a < b < |all| ensures all[a].name != all[b].name {
      if b >= |existing| {
        assert all[b] == st.added[b - |existing|] && all[b] in st.added;
        if a < |existing| {
          assert all[a] in existing;
          assert all[a].name in Names(existing) && all[b].name in Names(st.added);
        } else {
          assert all[a] == st.added[a - |existing|];
        }
      }
    }
  }

  /** When every path's key is already taken, the scan skips all of them and calls nothing. */
  lemma {:induction false} ScanOfRegisteredPathsSkipsAll(inp: ScanInput, start: ScanState, k: nat)
    requires inp.WellFormed() && k <= |inp.repoPaths|
    requires forall i :: 0 <= i < k ==> PathKey(inp.sshHost, inp.repoPaths[i]) in start.keys
    ensures ScanUpTo(inp, start, k) ==
      start.(result := start.result.(skipped := start.result.skipped + inp.repoPaths[..k]))
    decreases k
  {
    if k > 0 {
      ScanOfRegisteredPathsSkipsAll(inp, start, k - 1);
      assert inp.repoPaths[..k] == inp.repoPaths[..k - 1] + [inp.repoPaths[k - 1]];
    }
  }

  /** A path is skipped, registered or failed; only the last leaves its key out of the running set. */
  lemma {:induction false} ScanKeysCoverPaths(inp: ScanInput, start: ScanState, k: nat, i: nat)
    requires inp.WellFormed() && i < k <= |inp.repoPaths|
    requires |ScanUpTo(inp, start, k).result.errors| == |start.result.errors|
    ensures PathKey(inp.sshHost, inp.repoPaths[i]) in ScanUpTo(inp, start, k).keys
    decreases k
  {
    ScanErrorsGrow(inp, start, k - 1);
    if i < k - 1 {
      ScanKeysCoverPaths(inp, start, k - 1, i);
    }
  }

  /** The error list and the key set only ever grow along a scan. */
  lemma {:induction false} ScanErrorsGrow(inp: ScanInput, start: ScanState, k: nat)
    requires inp.WellFormed() && k <= |inp.repoPaths|
    ensures |start.result.errors| <= |ScanUpTo(inp, start, k).result.errors|
    ensures start.keys <= ScanUpTo(inp, start, k).keys
    decreases k
  {
    if k > 0 {
      ScanErrorsGrow(inp, start, k - 1);
    }
  }

  /**
   * Re-running a scan that reported no errors, against the store it left
   * behind, registers nothing, reports no error and skips every path, whatever
   * the per-item calls would have answered.
   */
  lemma RescanSkipsEverything(inp: ScanInput, again: ScanInput, existing: seq<Project>, firstId: nat)
    requires inp.WellFormed() && again.WellFormed()
    requires again.sshHost == inp.sshHost && again.repoPaths == inp.repoPaths
    requires ScanUpTo(inp, Start(existing, firstId), |inp.repoPaths|).result.errors == []
    ensures var st := ScanUpTo(inp, Start(existing, firstId), |inp.repoPaths|);
      var st2 := ScanUpTo(again, Start(existing + st.added, st.nextId), |again.repoPaths|);
      st2.result == ScanResult([], inp.repoPaths, []) && st2.added == []
  {
    var n := |inp.repoPaths|;
    var st := ScanUpTo(inp, Start(existing, firstId), n);
    ScanTracks(inp, existing, firstId, n);
    ConcatFacts(existing, st.added);
    var start2 := Start(existing + st.added, st.nextId);
    assert Keys(existing + st.added) == Keys(existing) + Keys(st.added) by {
      assert forall q :: q in existing + st.added <==> q in existing || q in st.added;
    }
    forall i | 0 <= i < n ensures PathKey(again.sshHost, again.repoPaths[i]) in start2.keys {
      ScanKeysCoverPaths(inp, Start(existing, firstId), n, i);
    }
    ScanOfRegisteredPathsSkipsAll(again, start2, n);
    assert again.repoPaths[..n] == inp.repoPaths;
  }

  /**
   * A save that throws still takes its name: the next repository with the
   * same base name falls back to `parent/base`.
   */
  lemma FailedSaveConsumesName()
    ensures var inp := ScanInput(None, ["/a/x", "/w/x"], [Success("main"), Success("main")], [SaveThrew(NonError), Saved]);
      ScanUpTo(inp, Start([], 0), 2).result == ScanResult(["w/x"], [], ["/a/x: 등록 실패"])
  {
    var inp := ScanInput(None, ["/a/x", "/w/x"], [Success("main"), Success("main")], [SaveThrew(NonError), Saved]);
    ProjectNaming.TwoSegmentPath('a', 'x');
    ProjectNaming.TwoSegmentPath('w', 'x');
    var s0 := Start([], 0);
    assert Keys([]) == {} && Names([]) == {};
    assert PathKey(None, "/a/x") == ":/a/x" && PathKey(None, "/w/x") == ":/w/x";
    assert ErrorEntry("/a/x", NonError) == "/a/x: 등록 실패";
    assert ProjectNaming.ResolvedName({}, "/a/x") == "x" && ProjectNaming.ResolvedName({"x"}, "/w/x") == "w/x";
    var s1 := ScanUpTo(inp, s0, 1);
    assert s1 == Step(inp, s0, 0);
    assert s1.names == {"x"} && s1.keys == {};
    assert s1.result == ScanResult([], [], ["/a/x: 등록 실패"]);
    var s2 := ScanUpTo(inp, s0, 2);
    assert s2 == Step(inp, s1, 1);
  }

  /** A branch lookup that throws comes before naming, so the name stays free. */
  lemma FailedBranchLookupKeepsName()
    ensures var inp := ScanInput(None, ["/a/x", "/w/x"], [Failure(NonError), Success("main")], [Saved, Saved]);
      ScanUpTo(inp, Start([], 0), 2).result == ScanResult(["x"], [], ["/a/x: 등록 실패"])
  {
    var inp := ScanInput(None, ["/a/x", "/w/x"], [Failure(NonError), Success("main")], [Saved, Saved]);
    ProjectNaming.TwoSegmentPath('w', 'x');
    var s0 := Start([], 0);
    assert Keys([]) == {} && Names([]) == {};
    assert PathKey(None, "/a/x") == ":/a/x" && PathKey(None, "/w/x") == ":/w/x";
    assert ErrorEntry("/a/x", NonError) == "/a/x: 등록 실패";
    assert ProjectNaming.ResolvedName({}, "/w/x") == "x";
    var s1 := ScanUpTo(inp, s0, 1);
    assert s1 == Step(inp, s0, 0);
    assert s1.names == {} && s1.keys == {};
    assert s1.result == ScanResult([], [], ["/a/x: 등록 실패"]);
    var s2 := ScanUpTo(inp, s0, 2);
    assert s2 == Step(inp, s1, 1);
  }
}
