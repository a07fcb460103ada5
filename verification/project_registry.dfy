/**
 * The project registry of the TeamFlow API: an in-memory list of project
 * records and a counter that hands out ids. A project's member list starts
 * as its owner; member operations never drop the owner, but `update` may
 * replace the list wholesale. Deleting a project removes it for good.
 */
module ProjectRegistry {
  import opened Common

  /**
   * A stored project; `None` in the optional fields is `null`, timestamps
   * are clock readings, member and owner ids are user ids.
   */
  datatype Project = Project(
    id: int,
    name: string,
    description: string,
    ownerId: int,
    status: string,
    members: seq<int>,
    createdAt: nat,
    updatedAt: nat,
    startDate: Option<string>,
    endDate: Option<string>,
    budget: Option<int>)
  {
    /**
     * `Project.update`: copies every key present in the patch except `id`,
     * `createdAt` and `ownerId`, then stamps `updatedAt`.
     */
    function Update(patch: ProjectPatch, now: nat): (p: Project)
      ensures p.id == id && p.createdAt == createdAt && p.ownerId == ownerId
      ensures p.updatedAt == now
      ensures p.name == (if patch.name.Some? then patch.name.value else name)
      ensures p.description == (if patch.description.Some? then patch.description.value else description)
      ensures p.status == (if patch.status.Some? then patch.status.value else status)
      ensures p.members == (if patch.members.Some? then patch.members.value else members)
      ensures p.startDate == (if patch.startDate.Some? then patch.startDate.value else startDate)
      ensures p.endDate == (if patch.endDate.Some? then patch.endDate.value else endDate)
      ensures p.budget == (if patch.budget.Some? then patch.budget.value else budget)
      ensures patch == EmptyPatch ==> p == this.(updatedAt := now)
    {
      this.(
        name := if patch.name.Some? then patch.name.value else name,
        description := if patch.description.Some? then patch.description.value else description,
        status := if patch.status.Some? then patch.status.value else status,
        members := if patch.members.Some? then patch.members.value else members,
        startDate := if patch.startDate.Some? then patch.startDate.value else startDate,
        endDate := if patch.endDate.Some? then patch.endDate.value else endDate,
        budget := if patch.budget.Some? then patch.budget.value else budget,
        updatedAt := now)
    }

    /**
     * `Project.addMember`: appends the user unless already a member; only an
     * actual addition stamps `updatedAt`. Never loses the owner, never
     * introduces a duplicate.
     */
    function AddMember(userId: int, now: nat): (p: Project)
      ensures userId in p.members
      ensures userId in members ==> p == this
      ensures userId !in members ==> p == this.(members := members + [userId], updatedAt := now)
      ensures ownerId in members ==> ownerId in p.members
      ensures NoDup(members) ==> NoDup(p.members)
    {
      if userId !in members then
        this.(members := members + [userId], updatedAt := now)
      else
        this
    }

    /**
     * `Project.removeMember`: the owner cannot be removed (nothing changes);
     * any other user loses every occurrence, the rest keep their order, and
     * `updatedAt` is stamped even when the user was not a member.
     */
    function RemoveMember(userId: int, now: nat): (p: Project)
      ensures userId == ownerId ==> p == this
      ensures userId != ownerId ==>
        && userId !in p.members
        && (forall x :: x in p.members <==> x in members && x != userId)
        && SubseqOf(p.members, members)
        && (forall x :: multiset(p.members)[x] == if x == userId then 0 else multiset(members)[x])
        && p == this.(members := p.members, updatedAt := now)
      ensures ownerId in members ==> ownerId in p.members
      ensures NoDup(members) ==> NoDup(p.members)
    {
      if userId != ownerId then
        var kept := Filter(members, (x: int) => x != userId);
        FilterKeepsNoDup(members, (x: int) => x != userId);
        FilterCounts(members, (x: int) => x != userId);
        this.(members := kept, updatedAt := now)
      else
        this
    }
  }

  /** The fields `create` reads; `status: None` is a status the caller left out. */
  datatype NewProject = NewProject(name: string, description: string, ownerId: int, status: Option<string>)

  /**
   * A patch for `update`: one optional entry per key a caller may send.
   * `id`, `createdAt` and `ownerId` may be sent but are never copied;
   * `members` replaces the whole member list.
   */
  datatype ProjectPatch = ProjectPatch(
    id: Option<int>,
    name: Option<string>,
    description: Option<string>,
    ownerId: Option<int>,
    status: Option<string>,
    members: Option<seq<int>>,
    createdAt: Option<nat>,
    startDate: Option<Option<string>>,
    endDate: Option<Option<string>>,
    budget: Option<Option<int>>)

  const EmptyPatch := ProjectPatch(None, None, None, None, None, None, None, None, None, None)

  /** The one error the registry throws. */
  datatype ProjectError = ProjectNotFound
  {
    function Message(): string
    {
      "Project not found"
    }
  }

  const DefaultStatus := "planning"

  /** The projects the registry starts with. */
  const SampleProjects := [
    NewProject("Website Redesign", "Complete redesign of company website", 1, None),
    NewProject("Mobile App Development", "Build iOS and Android app", 2, None),
    NewProject("Database Migration", "Migrate to new database system", 1, None)
  ]

  /**
   * The `Project` constructor: the owner is the only member, status defaults
   * to planning, dates and budget are null.
   */
  function NewRecord(id: int, data: NewProject, now: nat): (p: Project)
    ensures p.id == id && p.name == data.name && p.description == data.description
    ensures p.ownerId == data.ownerId && p.members == [data.ownerId]
    ensures p.status == (if data.status.Some? then data.status.value else DefaultStatus)
    ensures p.createdAt == now && p.updatedAt == now
    ensures p.startDate.None? && p.endDate.None? && p.budget.None?
  {
    Project(id, data.name, data.description, data.ownerId,
            if data.status.Some? then data.status.value else DefaultStatus,
            [data.ownerId], now, now, None, None, None)
  }

  function ProjectId(p: Project): int { p.id }

  /** The registry's invariant over its storage and counter. */
  ghost predicate Wf(projects: seq<Project>, nextId: int)
  {
    && 1 <= nextId
    && (forall k :: 0 <= k < |projects| ==> 1 <= projects[k].id < nextId)
    && IncreasingBy(projects, ProjectId)
  }

  // ---------------------------------------------------------------- reads

  /** `getAll`: every stored project, as stored (deleted ones are gone from storage). */
  function GetAll(projects: seq<Project>): (r: seq<Project>)
    ensures r == projects
  {
    projects
  }

  /** The index `getById` and `delete` find: the first project with this id, or -1. */
  function IndexOf(projects: seq<Project>, id: int): (k: int)
    ensures -1 <= k < |projects|
    ensures 0 <= k ==> projects[k].id == id
    ensures k == -1 <==> forall j :: 0 <= j < |projects| ==> projects[j].id != id
  {
    FindIndex(projects, (p: Project) => p.id == id)
  }

  /** `getById`: the project with this id, if there is one. */
  function GetById(projects: seq<Project>, id: int): (r: Option<Project>)
    ensures r.None? <==> forall j :: 0 <= j < |projects| ==> projects[j].id != id
    ensures r.Some? ==> r.value in projects && r.value.id == id
  {
    var k := IndexOf(projects, id);
    if k < 0 then None else Some(projects[k])
  }

  /** `getByOwner`: the projects this user owns, in storage order. */
  function GetByOwner(projects: seq<Project>, ownerId: int): (r: seq<Project>)
    ensures forall p :: p in r <==> p in projects && p.ownerId == ownerId
    ensures SubseqOf(r, projects)
  {
    Filter(projects, (p: Project) => p.ownerId == ownerId)
  }

  /** `getByStatus`: the projects with exactly this status, in storage order. */
  function GetByStatus(projects: seq<Project>, status: string): (r: seq<Project>)
    ensures forall p :: p in r <==> p in projects && p.status == status
    ensures SubseqOf(r, projects)
  {
    Filter(projects, (p: Project) => p.status == status)
  }

  // ---------------------------------------------------------------- facts

  /** Adding the same member twice is adding it once. */
  lemma AddMemberIdempotent(p: Project, userId: int, t1: nat, t2: nat)
    ensures p.AddMember(userId, t1).AddMember(userId, t2) == p.AddMember(userId, t1)
  {
  }

  /** Removing the same member twice leaves the member list as removing it once. */
  lemma RemoveMemberIdempotent(p: Project, userId: int, t1: nat, t2: nat)
    ensures p.RemoveMember(userId, t1).RemoveMember(userId, t2).members == p.RemoveMember(userId, t1).members
  {
    var once := p.RemoveMember(userId, t1);
    if userId != p.ownerId {
      FilterKeepsAll(once.members, (x: int) => x != userId);
    }
  }

  /**
   * A new project owned by user 1 has members [1]; adding user 2 gives
   * [1, 2]; removing the owner changes nothing; removing user 2 gives [1].
   */
  lemma MembershipScenario(id: int, now: nat)
    ensures var p := NewRecord(id, NewProject("P1", "d", 1, None), now);
      && p.members == [1] && p.status == "planning"
      && p.AddMember(2, now).members == [1, 2]
      && p.AddMember(2, now).RemoveMember(1, now).members == [1, 2]
      && p.AddMember(2, now).RemoveMember(2, now).members == [1]
  {
    var p := NewRecord(id, NewProject("P1", "d", 1, None), now);
    var q := p.AddMember(2, now);
    var r := q.RemoveMember(2, now);
    assert 1 in r.members && 2 !in r.members;
    assert [1, 2][1..] == [2] && [2][1..] == [];
  }

  /** Unlike the member operations, `update` can drop the owner from the member list. */
  lemma UpdateMayDropOwner(p: Project, now: nat)
    ensures p.ownerId !in p.Update(EmptyPatch.(members := Some([])), now).members
  {
  }

  /** The views over the registry list projects by increasing id, which is storage order. */
  lemma ViewsKeepIdOrder(projects: seq<Project>, nextId: int, ownerId: int, status: string)
    requires Wf(projects, nextId)
    ensures IncreasingBy(GetByOwner(projects, ownerId), ProjectId)
    ensures IncreasingBy(GetByStatus(projects, status), ProjectId)
  {
    SubseqKeepsIncreasing(GetByOwner(projects, ownerId), projects, ProjectId);
    SubseqKeepsIncreasing(GetByStatus(projects, status), projects, ProjectId);
  }

  /** Appending the record `create` builds keeps the invariant and uses a fresh id. */
  lemma CreateKeepsWf(projects: seq<Project>, nextId: int, data: NewProject, now: nat)
    requires Wf(projects, nextId)
    ensures Wf(projects + [NewRecord(nextId, data, now)], nextId + 1)
    ensures forall p :: p in projects ==> p.id < NewRecord(nextId, data, now).id
  {
  }

  /** Replacing a record by one with the same id keeps the invariant. */
  lemma ReplaceKeepsWf(projects: seq<Project>, nextId: int, k: int, p: Project)
    requires Wf(projects, nextId)
    requires 0 <= k < |projects| && p.id == projects[k].id
    ensures Wf(projects[k := p], nextId)
  {
  }

  /**
   * Splicing out a record keeps the invariant and the others' order, and no
   * project with the removed id is left.
   */
  lemma DeleteKeepsWf(projects: seq<Project>, nextId: int, k: int)
    requires Wf(projects, nextId)
    requires 0 <= k < |projects|
    ensures Wf(projects[..k] + projects[k + 1..], nextId)
    ensures GetById(projects[..k] + projects[k + 1..], projects[k].id).None?
  {
  }

  // ---------------------------------------------------------------- service

  /** `projectService` with its module-level `projects` array and `nextId` counter. */
  class ProjectService {
    var projects: seq<Project>
    var nextId: int

    ghost predicate Valid()
      reads this
    {
      Wf(projects, nextId)
    }

    /** The module start-up: the sample projects get ids 1, 2, 3. */
    constructor (now: nat)
      ensures Valid()
      ensures nextId == |SampleProjects| + 1
      ensures |projects| == |SampleProjects|
      ensures forall k :: 0 <= k < |projects| ==> projects[k] == NewRecord(k + 1, SampleProjects[k], now)
    {
      var store: seq<Project> := [];
      var id := 1;
      var i := 0;
      while i < |SampleProjects|
        invariant 0 <= i <= |SampleProjects|
        invariant id == i + 1 && |store| == i
        invariant forall k :: 0 <= k < i ==> store[k] == NewRecord(k + 1, SampleProjects[k], now)
        invariant Wf(store, id)
      {
        CreateKeepsWf(store, id, SampleProjects[i], now);
        store := store + [NewRecord(id, SampleProjects[i], now)];
        id := id + 1;
        i := i + 1;
      }
      projects := store;
      nextId := id;
    }

    /** `create`: appends a project with the next id and advances the counter. */
    method Create(data: NewProject, now: nat) returns (p: Project)
      requires Valid()
      modifies this
      ensures Valid()
      ensures p == NewRecord(old(nextId), data, now)
      ensures projects == old(projects) + [p]
      ensures nextId == old(nextId) + 1
      ensures forall q :: q in old(projects) ==> q.id < p.id
    {
      CreateKeepsWf(projects, nextId, data, now);
      p := NewRecord(nextId, data, now);
      nextId := nextId + 1;
      projects := projects + [p];
    }

    /** `update`: refuses a missing id; otherwise patches the record in place. */
    method Update(id: int, patch: ProjectPatch, now: nat) returns (r: Result<Project, ProjectError>)
      requires Valid()
      modifies this
      ensures Valid() && nextId == old(nextId)
      ensures r.Err? <==> GetById(old(projects), id).None?
      ensures r.Err? ==> r.error == ProjectNotFound && projects == old(projects)
      ensures r.Ok? ==>
        var k := IndexOf(old(projects), id);
        && 0 <= k
        && r.value == old(projects)[k].Update(patch, now)
        && projects == old(projects)[k := r.value]
        && r.value.id == id && r.value.updatedAt == now
        && r.value.createdAt == old(projects)[k].createdAt
        && r.value.ownerId == old(projects)[k].ownerId
    {
      var k := IndexOf(projects, id);
      if k < 0 {
        return Err(ProjectNotFound);
      }
      var updated := projects[k].Update(patch, now);
      ReplaceKeepsWf(projects, nextId, k, updated);
      projects := projects[k := updated];
      return Ok(updated);
    }

    /** `delete`: refuses a missing id; otherwise splices the record out of storage. */
    method Delete(id: int) returns (r: Result<Project, ProjectError>)
      requires Valid()
      modifies this
      ensures Valid() && nextId == old(nextId)
      ensures r.Err? <==> GetById(old(projects), id).None?
      ensures r.Err? ==> r.error == ProjectNotFound && projects == old(projects)
      ensures r.Ok? ==>
        var k := IndexOf(old(projects), id);
        && 0 <= k
        && r.value == old(projects)[k]
        && projects == old(projects)[..k] + old(projects)[k + 1..]
      ensures GetById(projects, id).None?
    {
      var k := IndexOf(projects, id);
      if k < 0 {
        return Err(ProjectNotFound);
      }
      var deleted := projects[k];
      DeleteKeepsWf(projects, nextId, k);
      projects := projects[..k] + projects[k + 1..];
      return Ok(deleted);
    }

    /** `addMember`: refuses a missing project; otherwise adds the user to its members. */
    method AddMember(projectId: int, userId: int, now: nat) returns (r: Result<Project, ProjectError>)
      requires Valid()
      modifies this
      ensures Valid() && nextId == old(nextId)
      ensures r.Err? <==> GetById(old(projects), projectId).None?
      ensures r.Err? ==> r.error == ProjectNotFound && projects == old(projects)
      ensures r.Ok? ==>
        var k := IndexOf(old(projects), projectId);
        && 0 <= k
        && r.value == old(projects)[k].AddMember(userId, now)
        && projects == old(projects)[k := r.value]
    {
      var k := IndexOf(projects, projectId);
      if k < 0 {
        return Err(ProjectNotFound);
      }
      var updated := projects[k].AddMember(userId, now);
      ReplaceKeepsWf(projects, nextId, k, updated);
      projects := projects[k := updated];
      return Ok(updated);
    }

    /** `removeMember`: refuses a missing project; otherwise removes the user unless it is the owner. */
    method RemoveMember(projectId: int, userId: int, now: nat) returns (r: Result<Project, ProjectError>)
      requires Valid()
      modifies this
      ensures Valid() && nextId == old(nextId)
      ensures r.Err? <==> GetById(old(projects), projectId).None?
      ensures r.Err? ==> r.error == ProjectNotFound && projects == old(projects)
      ensures r.Ok? ==>
        var k := IndexOf(old(projects), projectId);
        && 0 <= k
        && r.value == old(projects)[k].RemoveMember(userId, now)
        && projects == old(projects)[k := r.value]
    {
      var k := IndexOf(projects, projectId);
      if k < 0 {
        return Err(ProjectNotFound);
      }
      var updated := projects[k].RemoveMember(userId, now);
      ReplaceKeepsWf(projects, nextId, k, updated);
      projects := projects[k := updated];
      return Ok(updated);
    }
  }
}
