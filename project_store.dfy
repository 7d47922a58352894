/**
 * The file-backed project store: a map from project ID to project, guarded
 * by a read/write mutex and written to a JSON file after every change.
 *
 * The write itself is a parameter `saveErr`, the error the file write
 * gave; the store's map has changed whether or not it succeeds.
 */
module ProjectStore {
  import opened GoStrings

  /** A stored project; the two timestamps are Unix times */
  datatype Project = Project(
    id: string, name: string, description: string, createdAt: int, updatedAt: int,
    status: string, owner: string, members: seq<string>)

  function AlreadyExists(id: string): string {
    "project with ID " + id + " already exists"
  }

  function NotFound(id: string): string {
    "project with ID " + id + " not found"
  }

  // The mutex, as a state: whether a writer holds it and how many readers do

  datatype RWMutex = RWMutex(writer: bool, readers: nat)

  const Idle := RWMutex(false, 0)

  /** Lock succeeds only on an idle mutex; None means the caller waits */
  function Lock(m: RWMutex): (r: Option<RWMutex>)
    ensures r.Some? <==> m == Idle
    ensures r.Some? ==> r.value.writer
  {
    if m.writer || m.readers > 0 then None else Some(RWMutex(true, 0))
  }

  /** RLock waits while a writer holds the mutex */
  function RLock(m: RWMutex): (r: Option<RWMutex>)
    ensures r.Some? <==> !m.writer
    ensures r.Some? ==> r.value.readers == m.readers + 1
  {
    if m.writer then None else Some(m.(readers := m.readers + 1))
  }

  /** RUnlock and Unlock of a mutex not held that way are run-time errors, shown as None */
  function RUnlock(m: RWMutex): Option<RWMutex> {
    if m.readers == 0 then None else Some(m.(readers := m.readers - 1))
  }

  function Unlock(m: RWMutex): Option<RWMutex> {
    if !m.writer then None else Some(m.(writer := false))
  }

  /**
   * The lock steps of CreateProject, UpdateProject and DeleteProject: Lock,
   * then save, which takes a read lock when `saveLocks`, then the deferred
   * Unlock. None means the call never gets past a lock step.
   */
  function MutatorLocks(m: RWMutex, saveLocks: bool): Option<RWMutex> {
    match Lock(m)
    case None => None
    case Some(held) =>
      var afterSave :=
        if saveLocks then
          match RLock(held)
          case None => None
          case Some(reading) => RUnlock(reading)
        else Some(held);
      match afterSave
      case None => None
      case Some(m2) => Unlock(m2)
  }

  /** As written, save's read lock waits for the write lock its caller holds, from every state */
  lemma SaveUnderWriteLockBlocks(m: RWMutex)
    ensures MutatorLocks(m, true) == None
  {
  }

  /** With save taking no lock of its own, a call on an idle mutex leaves it idle */
  lemma SaveWithoutLockReleases(m: RWMutex)
    ensures MutatorLocks(m, false) == (if m == Idle then Some(Idle) else None)
  {
  }

  /** The store, with save taking no lock of its own */
  class Store {
    var projects: map<string, Project>

    /** Every project is stored under its own ID */
    predicate Valid()
      reads this
    {
      forall id :: id in projects ==> projects[id].id == id
    }

    /** A store whose file did not exist yet */
    constructor ()
      ensures Valid() && projects == map[]
    {
      projects := map[];
    }

    method CreateProject(project: Project, saveErr: Option<string>) returns (err: Option<string>)
      requires Valid()
      modifies this
      ensures Valid()
      ensures project.id in old(projects) ==> err == Some(AlreadyExists(project.id)) && projects == old(projects)
      ensures project.id !in old(projects) ==> err == saveErr && projects == old(projects)[project.id := project]
    {
      if project.id in projects {
        return Some(AlreadyExists(project.id));
      }
      projects := projects[project.id := project];
      return saveErr;
    }

    function GetProject(id: string): (r: Result<Project>)
      reads this
      ensures r.Ok? <==> id in projects
      ensures r.Ok? ==> r.value == projects[id]
      ensures r.Err? ==> r.msg == NotFound(id)
    {
      if id in projects then Ok(projects[id]) else Err(NotFound(id))
    }

    method UpdateProject(project: Project, saveErr: Option<string>) returns (err: Option<string>)
      requires Valid()
      modifies this
      ensures Valid()
      ensures project.id !in old(projects) ==> err == Some(NotFound(project.id)) && projects == old(projects)
      ensures project.id in old(projects) ==> err == saveErr && projects == old(projects)[project.id := project]
    {
      if project.id !in projects {
        return Some(NotFound(project.id));
      }
      projects := projects[project.id := project];
      return saveErr;
    }

    method DeleteProject(id: string, saveErr: Option<string>) returns (err: Option<string>)
      requires Valid()
      modifies this
      ensures Valid()
      ensures id !in old(projects) ==> err == Some(NotFound(id)) && projects == old(projects)
      ensures id in old(projects) ==> err == saveErr && projects == old(projects) - {id}
    {
      if id !in projects {
        return Some(NotFound(id));
      }
      projects := projects - {id};
      return saveErr;
    }

    /** Every stored project exactly once, in the map's iteration order */
    method ListProjects() returns (r: seq<Project>)
      requires Valid()
      ensures |r| == |projects|
      ensures forall i :: 0 <= i < |r| ==> r[i].id in projects && projects[r[i].id] == r[i]
      ensures forall i, j :: 0 <= i < j < |r| ==> r[i].id != r[j].id
      ensures forall id :: id in projects ==> exists i :: 0 <= i < |r| && r[i].id == id
    {
      var m := projects;
      ghost var ids;
      r, ids := MapValues(m);
      assert forall i :: 0 <= i < |r| ==> r[i].id == ids[i];
      forall id | id in m
        ensures exists i :: 0 <= i < |r| && r[i].id == id
      {
        var i :| 0 <= i < |ids| && ids[i] == id;
        assert r[i].id == id;
      }
    }
  }

  /** The values of a map, each once; `ids` are their keys in the same order */
  method MapValues<K, V>(m: map<K, V>) returns (r: seq<V>, ghost ids: seq<K>)
    ensures |r| == |ids| == |m|
    ensures forall i :: 0 <= i < |ids| ==> ids[i] in m && r[i] == m[ids[i]]
    ensures forall i, j :: 0 <= i < j < |ids| ==> ids[i] != ids[j]
    ensures forall id :: id in m ==> id in ids
  {
    r := [];
    ids := [];
    var left := m.Keys;
    while left != {}
      invariant left <= m.Keys
      invariant |r| == |ids| && |ids| + |left| == |m|
      invariant forall i :: 0 <= i < |ids| ==> ids[i] in m && ids[i] !in left && r[i] == m[ids[i]]
      invariant forall i, j :: 0 <= i < j < |ids| ==> ids[i] != ids[j]
      invariant forall id :: id in m && id !in left ==> id in ids
      decreases |left|
    {
      var id :| id in left;
      assert |left - {id}| == |left| - 1;
      r := r + [m[id]];
      ids := ids + [id];
      left := left - {id};
    }
  }

  /** Created, then read back: the same project */
  method CreateThenGet(s: Store, p: Project, saveErr: Option<string>) returns (got: Result<Project>)
    requires s.Valid() && p.id !in s.projects
    modifies s
    ensures got == Ok(p)
  {
    var _ := s.CreateProject(p, saveErr);
    got := s.GetProject(p.id);
  }

  /** Deleted, then read back: not found, and the other projects are still there */
  method DeleteThenGet(s: Store, id: string, other: string, saveErr: Option<string>) returns (got: Result<Project>, kept: bool)
    requires s.Valid() && id in s.projects && other != id
    modifies s
    ensures got == Err(NotFound(id))
    ensures kept == (other in old(s.projects))
  {
    var _ := s.DeleteProject(id, saveErr);
    got := s.GetProject(id);
    kept := s.GetProject(other).Ok?;
  }
}
