/** The Project document as backend/routes/projects.js uses it: the fields of
    backend/models/Project.js plus `admin`, `inviteCode` and `sessionActive`,
    which the handlers read and write; and the projects collection with the
    queries the handlers run against it. */
module ProjectModel {
  import opened Base

  /** One entry of `project.files`; `lastModified` is a timestamp. */
  datatype File = File(name: string, content: string, lastModified: int)

  /** A project as a route sends it in a response (a snapshot of the document). */
  datatype ProjectView = ProjectView(
    id: Id, name: string, owner: Id, admin: Id, collaborators: seq<Id>,
    inviteCode: Option<string>, sessionActive: bool, files: seq<File>)

  /** No two files share a name. */
  predicate UniqueNames(files: seq<File>)
  {
    forall i, j :: 0 <= i < j < |files| ==> files[i].name != files[j].name
  }

  /** `files.find(f => f.name === name)`, as an index. */
  function FindFile(files: seq<File>, name: string): (r: Option<nat>)
    ensures r.Some? ==> r.value < |files| && files[r.value].name == name
    ensures r.Some? ==> forall j :: 0 <= j < r.value ==> files[j].name != name
    ensures r.None? ==> forall j :: 0 <= j < |files| ==> files[j].name != name
  {
    if files == [] then None
    else if files[0].name == name then Some(0)
    else match FindFile(files[1..], name)
         case None => None
         case Some(k) => Some(k + 1)
  }

  class Project {
    const id: Id
    var name: string
    const owner: Id
    var admin: Id
    var collaborators: seq<Id>
    var inviteCode: Option<string>
    var sessionActive: bool
    var files: seq<File>

    /** What every handler keeps: the owner is the admin and a collaborator,
        no collaborator is listed twice, an invite code exists exactly while a
        session is active, and file names are unique. */
    ghost predicate Valid()
      reads this
    {
      && admin == owner
      && owner in collaborators
      && NoDuplicates(collaborators)
      && (inviteCode.Some? <==> sessionActive)
      && UniqueNames(files)
    }

    /** `new Project({ name, owner, collaborators: [owner], admin: owner })`:
        no invite code, no active session, no files. */
    constructor (id: Id, name: string, owner: Id)
      ensures this.id == id && this.name == name && this.owner == owner && admin == owner
      ensures collaborators == [owner] && inviteCode == None && !sessionActive && files == []
      ensures Valid()
    {
      this.id := id;
      this.name := name;
      this.owner := owner;
      admin := owner;
      collaborators := [owner];
      inviteCode := None;
      sessionActive := false;
      files := [];
    }

    function View(): ProjectView
      reads this
    {
      ProjectView(id, name, owner, admin, collaborators, inviteCode, sessionActive, files)
    }
  }

  /** The list query `{ $or: [{ owner: uid }, { collaborators: uid,
      inviteCode: { $ne: null }, sessionActive: true }] }`. */
  predicate Listed(p: ProjectView, uid: Id)
  {
    p.owner == uid || (uid in p.collaborators && p.inviteCode.Some? && p.sessionActive)
  }

  /** The looked-up project as a set: empty when the lookup found nothing.
      A handler's frame names the fields of this set. */
  function ProjectSet(p: Project?): set<Project>
  {
    if p == null then {} else {p}
  }

  /** The first project of `ps` with the given id. */
  function FindProjectById(ps: seq<Project>, id: Id): (p: Project?)
    ensures p != null ==> p in ps && p.id == id
    ensures p == null ==> forall q :: q in ps ==> q.id != id
  {
    if ps == [] then null
    else if ps[0].id == id then ps[0]
    else FindProjectById(ps[1..], id)
  }

  /** The first project of `ps` whose session is active with exactly this
      invite code (`Project.findOne({ inviteCode, sessionActive: true })`). */
  function FindActiveByInvite(ps: seq<Project>, code: string): (p: Project?)
    reads ps
    ensures p != null ==> p in ps && p.inviteCode == Some(code) && p.sessionActive
    ensures p == null ==> forall q :: q in ps ==> !(q.inviteCode == Some(code) && q.sessionActive)
  {
    if ps == [] then null
    else if ps[0].inviteCode == Some(code) && ps[0].sessionActive then ps[0]
    else FindActiveByInvite(ps[1..], code)
  }

  /** The projects the list route returns for `uid`, in collection order. */
  function ListedViews(ps: seq<Project>, uid: Id): (r: seq<ProjectView>)
    reads ps
    ensures forall p :: p in ps && Listed(p.View(), uid) ==> p.View() in r
    ensures forall v :: v in r ==> Listed(v, uid) && exists p :: p in ps && p.View() == v
    ensures |r| <= |ps|
  {
    if ps == [] then []
    else
      var rest := ListedViews(ps[1..], uid);
      if Listed(ps[0].View(), uid) then [ps[0].View()] + rest else rest
  }

  /** The projects collection. */
  class ProjectCollection {
    var projects: seq<Project>

    constructor ()
      ensures projects == []
    {
      projects := [];
    }

    function FindById(id: Id): (p: Project?)
      reads this
      ensures p != null ==> p in projects && p.id == id
      ensures p == null ==> forall q :: q in projects ==> q.id != id
    {
      FindProjectById(projects, id)
    }

    /** `Project.findOne({ _id: id, $or: [{ owner: uid }, { collaborators: uid }] })`:
        the project, when `uid` owns it or collaborates on it. */
    function FindForMember(id: Id, uid: Id): (p: Project?)
      reads this, projects
      ensures p != null ==> p == FindById(id) && (p.owner == uid || uid in p.collaborators)
      ensures p == null ==> FindById(id) == null
                            || (FindById(id).owner != uid && uid !in FindById(id).collaborators)
    {
      var p := FindById(id);
      if p != null && (p.owner == uid || uid in p.collaborators) then p else null
    }
  }
}
