/**
 * The server actions of src/app/actions/project.ts over the project store:
 * `registerProject`, `deleteProject`, `getProjectBranches` and
 * `scanAndRegisterProjects`. The git helpers they call (`validateGitRepo`,
 * `getDefaultBranch`, `listBranches`, `scanGitRepos`) and the outcome of
 * `repo.save` are parameters: their answers, including a throw.
 */
module ProjectActions {
  import opened Wrappers
  import opened Projects
  import opened ScanSpec
  import ProjectNaming

  const RequiredMessage := "이름과 경로는 필수입니다."
  const InvalidRepoMessage := "유효한 git 저장소가 아닙니다."
  const DuplicateNameMessage := "이미 같은 이름의 프로젝트가 있습니다."

  /** `{ success: false, error }`, `{ success: true, project }`, or a rejected promise. */
  datatype RegisterResult = Rejected(error: string) | Registered(project: Project) | Threw(thrown: Thrown)

  /** The guard chain of `registerProject`: empty input, invalid repository, duplicate name. */
  ghost predicate RegisterGuardsPass(projects: seq<Project>, name: string, repoPath: string, isValidRepo: bool)
  {
    name != "" && repoPath != "" && isValidRepo && name !in Names(projects)
  }

  /**
   * `registerProject(name, repoPath, sshHost)`. `isValidRepo` is the answer of
   * `validateGitRepo`, `branchLookup` that of `getDefaultBranch`, `save` the
   * outcome of `repo.save`.
   */
  method RegisterProject(
    store: ProjectStore, name: string, repoPath: string, sshHost: Option<string>,
    isValidRepo: bool, branchLookup: Result<string, Thrown>, save: SaveOutcome)
    returns (r: RegisterResult)
    requires store.Valid()
    modifies store
    ensures store.Valid()
    ensures name == "" || repoPath == "" ==> r == Rejected(RequiredMessage)
    ensures name != "" && repoPath != "" && !isValidRepo ==> r == Rejected(InvalidRepoMessage)
    ensures name != "" && repoPath != "" && isValidRepo && name in Names(old(store.projects)) ==>
      r == Rejected(DuplicateNameMessage)
    ensures RegisterGuardsPass(old(store.projects), name, repoPath, isValidRepo) && branchLookup.Failure? ==>
      r == Threw(branchLookup.error)
    ensures RegisterGuardsPass(old(store.projects), name, repoPath, isValidRepo) && branchLookup.Success? && save.SaveThrew? ==>
      r == Threw(save.thrown)
    ensures r.Registered? <==>
      RegisterGuardsPass(old(store.projects), name, repoPath, isValidRepo) && branchLookup.Success? && save.Saved?
    ensures r.Registered? ==>
      && r.project == Project(old(store.nextId), name, repoPath, branchLookup.value, NormalizeHost(sshHost))
      && store.projects == old(store.projects) + [r.project]
    ensures !r.Registered? ==> unchanged(store)
  {
    if name == "" || repoPath == "" {
      return Rejected(RequiredMessage);
    }

    if !isValidRepo {
      return Rejected(InvalidRepoMessage);
    }

    var existing := FindByName(store.projects, name);
    if existing.Some? {
      return Rejected(DuplicateNameMessage);
    }

    if branchLookup.Failure? {
      return Threw(branchLookup.error);
    }
    var defaultBranch := branchLookup.value;

    if save.SaveThrew? {
      return Threw(save.thrown);
    }
    var saved := store.Save(name, repoPath, defaultBranch, NormalizeHost(sshHost));
    r := Registered(saved);
  }

  /** `deleteProject(projectId)`: false when no project has that id, otherwise removes it. */
  method DeleteProject(store: ProjectStore, projectId: nat) returns (deleted: bool)
    requires store.Valid()
    modifies store
    ensures store.Valid() && store.nextId == old(store.nextId)
    ensures deleted <==> projectId in Ids(old(store.projects))
    ensures !deleted ==> store.projects == old(store.projects)
    ensures deleted ==> |store.projects| == |old(store.projects)| - 1
    ensures store.projects == WithoutId(old(store.projects), projectId)
  {
    var project := FindById(store.projects, projectId);
    if project.None? {
      forall k | 0 <= k < |store.projects| ensures store.projects[k].id != projectId {
        assert store.projects[k] in store.projects;
      }
      WithoutIdAbsent(store.projects, projectId);
      return false;
    }
    ghost var i :| 0 <= i < |store.projects| && store.projects[i] == project.value;
    WithoutIdRemovesOne(store.projects, i);
    store.Remove(projectId);
    deleted := true;
  }

  /**
   * `getProjectBranches(projectId)`: [] for an unknown id, otherwise what
   * `listBranches` answers for the project's path and host (a throw passes through).
   */
  method GetProjectBranches(
    store: ProjectStore, projectId: nat,
    listBranches: (string, Option<string>) -> Result<seq<string>, Thrown>)
    returns (branches: Result<seq<string>, Thrown>)
    requires store.Valid()
    ensures projectId !in Ids(store.projects) ==> branches == Success([])
    ensures forall p :: p in store.projects && p.id == projectId ==>
      branches == listBranches(p.repoPath, p.sshHost)
  {
    var project := FindById(store.projects, projectId);
    if project.None? {
      return Success([]);
    }
    forall p | p in store.projects && p.id == projectId
      ensures p == project.value
    {
      var a :| 0 <= a < |store.projects| && store.projects[a] == p;
      var b :| 0 <= b < |store.projects| && store.projects[b] == project.value;
      assert a == b;
    }
    branches := listBranches(project.value.repoPath, project.value.sshHost);
  }

  /**
   * `scanAndRegisterProjects(rootPath, sshHost)`, from the paths `scanGitRepos`
   * returned onwards. The i-th entries of `branchLookups` and `saves` answer the
   * calls made for the i-th path, if they are made.
   */
  method ScanAndRegisterProjects(
    store: ProjectStore, sshHost: Option<string>, repoPaths: seq<string>,
    branchLookups: seq<Result<string, Thrown>>, saves: seq<SaveOutcome>)
    returns (result: ScanResult)
    requires store.Valid()
    requires |branchLookups| == |repoPaths| && |saves| == |repoPaths|
    modifies store
    ensures store.Valid()
    ensures repoPaths == [] ==> result == EmptyResult && store.projects == old(store.projects)
    ensures var st := ScanUpTo(ScanInput(sshHost, repoPaths, branchLookups, saves),
                               Start(old(store.projects), old(store.nextId)), |repoPaths|);
      && result == st.result
      && store.projects == old(store.projects) + st.added
      && store.nextId == st.nextId
  {
    result := EmptyResult;
    if |repoPaths| == 0 {
      return result;
    }

    ghost var inp := ScanInput(sshHost, repoPaths, branchLookups, saves);
    var existing := store.projects;
    var existingPaths := set p | p in existing :: ProjectKey(p);
    var existingNames := set p | p in existing :: p.name;
    ghost var firstId := store.nextId;
    ghost var start := Start(existing, firstId);

    ghost var st := start;
    var i := 0;
    while i < |repoPaths|
      invariant 0 <= i <= |repoPaths|
      invariant st == ScanUpTo(inp, start, i)
      invariant store.Valid()
      invariant st.keys == existingPaths && st.names == existingNames && st.result == result
      invariant store.projects == existing + st.added && store.nextId == st.nextId
    {
      var repoPath := repoPaths[i];
      var pathKey := PathKey(sshHost, repoPath);
      if pathKey in existingPaths {
        result := result.(skipped := result.skipped + [repoPath]);
      } else {
        match branchLookups[i]
        case Failure(t) =>
          result := result.(errors := result.errors + [ErrorEntry(repoPath, t)]);
        case Success(defaultBranch) =>
          var projectName;
          projectName, existingNames := ProjectNaming.ResolveProjectName(existingNames, repoPath);
          match saves[i]
          case SaveThrew(t) =>
            result := result.(errors := result.errors + [ErrorEntry(repoPath, t)]);
          case Saved =>
            ScanNamesCoverStore(inp, existing, firstId, i);
            var _ := store.Save(projectName, repoPath, defaultBranch, NormalizeHost(sshHost));
            existingPaths := existingPaths + {pathKey};
            result := result.(registered := result.registered + [projectName]);
      }
      st := Step(inp, st, i);
      i := i + 1;
    }
  }
}
