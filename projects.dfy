/**
 * The Project records of src/app/actions/project.ts and the store that holds
 * them. The relational store itself is outside the model: `ProjectStore` is its
 * in-memory stand-in, with the operations the server actions use (find by
 * name, find by id, save, remove).
 */
module Projects {
  import opened Wrappers

  /** A registered repository; `sshHost == None` (`null`) means the local machine. */
  datatype Project = Project(id: nat, name: string, repoPath: string, defaultBranch: string, sshHost: Option<string>)

  /** What a `catch` clause receives: an `Error` with a message, or some other thrown value. */
  datatype Thrown = ErrorObject(message: string) | NonError

  /** Outcome of `repo.save`, which may throw. */
  datatype SaveOutcome = Saved | SaveThrew(thrown: Thrown)

  /** `sshHost || null`: an absent and an empty host both mean local execution. */
  function NormalizeHost(sshHost: Option<string>): (h: Option<string>)
    ensures h == None || (h == sshHost && h.value != "")
    ensures h == None ==> sshHost == None || sshHost == Some("")
  {
    if sshHost.Some? && sshHost.value != "" then sshHost else None
  }

  /** `sshHost || ""`. */
  function HostText(sshHost: Option<string>): string
  {
    if sshHost.Some? then sshHost.value else ""
  }

  /** The duplicate-detection key `${sshHost || ""}:${repoPath}` of a bulk scan. */
  function PathKey(sshHost: Option<string>, repoPath: string): string
  {
    HostText(sshHost) + ":" + repoPath
  }

  /** Storing the normalised host does not change the key a scan computes. */
  lemma PathKeyOfNormalizedHost(sshHost: Option<string>, repoPath: string)
    ensures PathKey(NormalizeHost(sshHost), repoPath) == PathKey(sshHost, repoPath)
  {
  }

  /** The key is a plain string: a ':' inside a path makes two different (host, path) pairs collide. */
  lemma PathKeyNotInjective()
    ensures PathKey(Some("a"), "b:/c") == PathKey(Some("a:b"), "/c")
  {
  }

  /** When no host contains ':', equal keys do mean the same host text and the same path. */
  lemma PathKeyInjectiveWithoutColon(h1: Option<string>, p1: string, h2: Option<string>, p2: string)
    requires ':' !in HostText(h1) && ':' !in HostText(h2)
    requires PathKey(h1, p1) == PathKey(h2, p2)
    ensures HostText(h1) == HostText(h2) && p1 == p2
  {
    var a, b, key := HostText(h1), HostText(h2), PathKey(h1, p1);
    assert key[|a|] == ':' && key[|b|] == ':';
    assert forall k :: 0 <= k < |a| ==> key[k] == a[k];
    assert forall k :: 0 <= k < |b| ==> key[k] == b[k];
    assert forall k :: 0 <= k < |b| ==> b[k] != ':';
    assert |a| == |b|;
    assert a == key[..|a|] == b;
    assert p1 == key[|a| + 1..] == p2;
  }

  function ProjectKey(p: Project): string
  {
    PathKey(p.sshHost, p.repoPath)
  }

  ghost function Keys(ps: seq<Project>): set<string>
  {
    set p | p in ps :: ProjectKey(p)
  }

  ghost function Names(ps: seq<Project>): set<string>
  {
    set p | p in ps :: p.name
  }

  ghost function Ids(ps: seq<Project>): set<nat>
  {
    set p | p in ps :: p.id
  }

  ghost predicate DistinctIds(ps: seq<Project>)
  {
    forall i, j :: 0 <= i < j < |ps| ==> ps[i].id != ps[j].id
  }

  ghost predicate DistinctNames(ps: seq<Project>)
  {
    forall i, j :: 0 <= i < j < |ps| ==> ps[i].name != ps[j].name
  }

  /** `repo.findOneBy({ name })`. */
  function FindByName(ps: seq<Project>, name: string): (r: Option<Project>)
    ensures r.Some? <==> name in Names(ps)
    ensures r.Some? ==> r.value in ps && r.value.name == name
  {
    if ps == [] then None
    else if ps[0].name == name then Some(ps[0])
    else
      var r := FindByName(ps[1..], name);
      assert Names(ps) == {ps[0].name} + Names(ps[1..]) by {
        assert forall p :: p in ps <==> p == ps[0] || p in ps[1..];
      }
      r
  }

  /** `repo.findOneBy({ id })`. */
  function FindById(ps: seq<Project>, id: nat): (r: Option<Project>)
    ensures r.Some? <==> id in Ids(ps)
    ensures r.Some? ==> r.value in ps && r.value.id == id
  {
    if ps == [] then None
    else if ps[0].id == id then Some(ps[0])
    else
      var r := FindById(ps[1..], id);
      assert Ids(ps) == {ps[0].id} + Ids(ps[1..]) by {
        assert forall p :: p in ps <==> p == ps[0] || p in ps[1..];
      }
      r
  }

  /** The store's contents once the row with primary key `id` is deleted. */
  function WithoutId(ps: seq<Project>, id: nat): seq<Project>
  {
    if ps == [] then []
    else if ps[0].id == id then WithoutId(ps[1..], id)
    else [ps[0]] + WithoutId(ps[1..], id)
  }

  /** The rows kept by a delete are exactly those with a different id. */
  lemma {:induction false} WithoutIdMembers(ps: seq<Project>, id: nat)
    ensures forall p :: p in WithoutId(ps, id) <==> p in ps && p.id != id
    decreases |ps|
  {
    if ps != [] {
      WithoutIdMembers(ps[1..], id);
      assert forall p :: p in ps <==> p == ps[0] || p in ps[1..];
    }
  }

  /** With distinct ids, deleting by id removes exactly the one project at its index and keeps the order of the rest. */
  lemma {:induction false} WithoutIdRemovesOne(ps: seq<Project>, i: nat)
    requires DistinctIds(ps) && i < |ps|
    ensures WithoutId(ps, ps[i].id) == ps[..i] + ps[i + 1..]
    decreases |ps|
  {
    var id := ps[i].id;
    if i == 0 {
      WithoutIdAbsent(ps[1..], id);
      assert ps[..0] + ps[1..] == ps[1..];
    } else {
      assert ps[1..][i - 1] == ps[i];
      WithoutIdRemovesOne(ps[1..], i - 1);
      assert ps[..i] + ps[i + 1..] == [ps[0]] + (ps[1..][..i - 1] + ps[1..][i..]);
    }
  }

  /** Deleting an id no project carries changes nothing. */
  lemma {:induction false} WithoutIdAbsent(ps: seq<Project>, id: nat)
    requires forall k :: 0 <= k < |ps| ==> ps[k].id != id
    ensures WithoutId(ps, id) == ps
    decreases |ps|
  {
    if ps != [] {
      WithoutIdAbsent(ps[1..], id);
      assert ps == [ps[0]] + ps[1..];
    }
  }

  /** Dropping one element keeps ids and names distinct. */
  lemma DeleteIndexKeepsDistinct(ps: seq<Project>, i: nat)
    requires i < |ps| && DistinctIds(ps) && DistinctNames(ps)
    ensures DistinctIds(ps[..i] + ps[i + 1..]) && DistinctNames(ps[..i] + ps[i + 1..])
  {
    var r := ps[..i] + ps[i + 1..];
    forall a, b | 0 <= a < b < |r|
      ensures r[a].id != r[b].id && r[a].name != r[b].name
    {
      var a', b' := if a < i then a else a + 1, if b < i then b else b + 1;
      assert r[a] == ps[a'] && r[b] == ps[b'] && a' < b';
    }
  }

  /**
   * The in-memory project table. Ids are handed out by a counter, standing in
   * for the database's generated primary keys; names are unique.
   */
  class ProjectStore {
    var projects: seq<Project>
    var nextId: nat

    ghost predicate Valid()
      reads this
    {
      && (forall k :: 0 <= k < |projects| ==> projects[k].id < nextId)
      && DistinctIds(projects)
      && DistinctNames(projects)
    }

    constructor ()
      ensures Valid() && projects == [] && nextId == 0
    {
      projects := [];
      nextId := 0;
    }

    /** `repo.save(repo.create({...}))` of a new project that succeeds: one row with a fresh id. */
    method Save(name: string, repoPath: string, defaultBranch: string, sshHost: Option<string>) returns (saved: Project)
      requires Valid()
      requires name !in Names(projects)
      modifies this
      ensures Valid()
      ensures saved == Project(old(nextId), name, repoPath, defaultBranch, sshHost)
      ensures projects == old(projects) + [saved] && nextId == old(nextId) + 1
    {
      saved := Project(nextId, name, repoPath, defaultBranch, sshHost);
      forall k | 0 <= k < |projects| ensures projects[k].name != name {
        assert projects[k] in projects;
      }
      projects := projects + [saved];
      nextId := nextId + 1;
    }

    /** `repo.remove(project)`: deletes the row whose primary key is `id`. */
    method Remove(id: nat)
      requires Valid()
      modifies this
      ensures Valid() && nextId == old(nextId)
      ensures projects == WithoutId(old(projects), id)
    {
      var r := FindById(projects, id);
      if r.None? {
        forall k | 0 <= k < |projects| ensures projects[k].id != id {
          assert projects[k] in projects;
        }
        WithoutIdAbsent(projects, id);
      } else {
        var i :| 0 <= i < |projects| && projects[i] == r.value;
        WithoutIdRemovesOne(projects, i);
        DeleteIndexKeepsDistinct(projects, i);
        ghost var rest := projects[..i] + projects[i + 1..];
        assert forall k :: 0 <= k < |rest| ==> rest[k] in projects;
        projects := projects[..i] + projects[i + 1..];
      }
    }
  }
}
