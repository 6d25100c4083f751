/** The handlers of backend/routes/projects.js, one method (or, for the
    read-only ones, one function) per route, each running its guards in the
    handler's order and answering with a status. `requester` is `req.user`
    as the middleware left it; `now` is `new Date()`; `newId` and `uuid` are
    the fresh `_id` and `uuidv4()` values; `isValidObjectId` is
    `mongoose.Types.ObjectId.isValid`; `hashOf` is the password hash the
    user pre-save hook applies; `hub` is the socket server the app keeps as
    'io'. */
module ProjectRoutes {
  import opened Base
  import opened UserModel
  import opened ProjectModel
  import opened CollaborationHub

  datatype Invite = Invite(inviteCode: string, meetingLink: string)
  datatype Removed = Removed(message: string, project: ProjectView)
  datatype FileBody = FileBody(content: string, lastModified: int)
  datatype FileEntry = FileEntry(name: string, lastModified: int)
  datatype FileSaved = FileSaved(message: string, content: string, lastModified: int)
  datatype FileCreated = FileCreated(message: string, name: string, lastModified: int)

  /** The text a file is created with when it is first read. */
  const StarterContent := "// Start coding here"

  /** `uuidv4().slice(0, 8)`. */
  function InviteCodeOf(uuid: string): (code: string)
    ensures |code| == if |uuid| < 8 then |uuid| else 8
    ensures code == uuid[..|code|]
  {
    if |uuid| <= 8 then uuid else uuid[..8]
  }

  /** The file list after saving `content` under `name`: the first file with
      that name is overwritten in place, or a new file is appended. */
  function SaveIntoFiles(files: seq<File>, name: string, content: string, now: int): (r: seq<File>)
    ensures |r| == (if FindFile(files, name).Some? then |files| else |files| + 1)
    ensures forall j :: 0 <= j < |files| && files[j].name != name ==> r[j] == files[j]
    ensures forall j :: 0 <= j < |files| ==> r[j].name == files[j].name
    ensures |files| < |r| ==> r[|files|] == File(name, content, now)
  {
    match FindFile(files, name)
    case Some(i) => files[i := File(files[i].name, content, now)]
    case None => files + [File(name, content, now)]
  }

  /** A save leaves exactly one file with the name, holding the saved
      content; every other file is kept, in place; no name is duplicated. */
  lemma SaveIntoFilesProperties(files: seq<File>, name: string, content: string, now: int)
    requires UniqueNames(files)
    ensures var r := SaveIntoFiles(files, name, content, now);
            && UniqueNames(r)
            && FindFile(r, name).Some? && r[FindFile(r, name).value] == File(name, content, now)
            && (forall j :: 0 <= j < |files| && files[j].name != name ==> r[j] == files[j])
            && |r| == (if FindFile(files, name).Some? then |files| else |files| + 1)
  {
    var r := SaveIntoFiles(files, name, content, now);
    match FindFile(files, name)
    case Some(i) =>
      assert forall j :: 0 <= j < |r| ==> r[j].name == files[j].name;
      assert FindFile(r, name) == Some(i);
    case None =>
      assert forall j :: 0 <= j < |files| ==> r[j] == files[j];
      assert r[|files|].name == name;
  }

  /** POST `/`: a missing name is refused; otherwise a project owned and
      administered by the requester, with the requester as its only
      collaborator, is stored, and the requester's `projectsOwned` gains it.
      When the requester's user record is gone the handler throws after the
      project was saved (500). */
  method CreateProject(projects: ProjectCollection, users: UserCollection, requester: Claims,
                       name: string, newId: Id, now: int, hashOf: string -> string)
    returns (r: Response<ProjectView>)
    requires projects.FindById(newId) == null
    modifies projects`projects
    modifies UserSet(users.FindById(requester.id))`projectsOwned, UserSet(users.FindById(requester.id))`projectsJoined,
             UserSet(users.FindById(requester.id))`password, UserSet(users.FindById(requester.id))`updatedAt,
             UserSet(users.FindById(requester.id))`passwordModified
    ensures !Truthy(name) ==> r == Fail(BadRequest("Project name required")) && projects.projects == old(projects.projects)
    ensures Truthy(name) ==>
              && |projects.projects| == |old(projects.projects)| + 1
              && projects.projects[..|old(projects.projects)|] == old(projects.projects)
              && var p := projects.projects[|old(projects.projects)|];
              && fresh(p) && p.Valid()
              && p.View() == ProjectView(newId, name, requester.id, requester.id, [requester.id], None, false, [])
              && projects.FindById(newId) == p
    ensures r.Ok? <==> Truthy(name) && users.FindById(requester.id) != null
    ensures var u := users.FindById(requester.id);
            && (Truthy(name) && u != null ==>
                  r == Ok(projects.projects[|old(projects.projects)|].View())
                  && u.projectsOwned == AddIfAbsent(old(u.projectsOwned), newId)
                  && u.projectsJoined == old(u.projectsJoined)
                  && SavedAt(u, now, hashOf))
            && (!Truthy(name) ==> unchanged(UserSet(u)))
            && (Truthy(name) && u == null ==> r == Fail(ServerError("Server error")))
  {
    if !Truthy(name) {
      return Fail(BadRequest("Project name required"));
    }
    var project := new Project(newId, name, requester.id);
    projects.projects := projects.projects + [project];
    FindAfterAppend(old(projects.projects), project);
    var user := users.FindById(requester.id);
    if user == null {
      return Fail(ServerError("Server error"));
    }
    user.UpdateProjectAssociations(project.id, true, now, hashOf);
    r := Ok(project.View());
  }

  lemma {:induction false} FindAfterAppend(ps: seq<Project>, p: Project)
    requires FindProjectById(ps, p.id) == null
    ensures FindProjectById(ps + [p], p.id) == p
  {
    if ps != [] {
      assert (ps + [p])[1..] == ps[1..] + [p];
      FindAfterAppend(ps[1..], p);
    }
  }

  /** Why POST `/:projectId/collaborators` refuses, in the handler's order:
      user id missing, user id malformed, project missing, requester neither
      the project's admin nor role 'admin', user missing, a supplied invite
      code that is not the project's. `project` and `user` are the results of
      the two lookups. None: the user is added. */
  function AddCollaboratorRefusal(requester: Claims, userId: string, inviteCode: string,
                                  isValidObjectId: string -> bool, project: Project?, user: User?)
    : (f: Option<Failure>)
    reads ProjectSet(project)
    ensures f == Some(BadRequest("User ID required")) <==> !Truthy(userId)
    ensures f == Some(BadRequest("Invalid user ID")) <==> Truthy(userId) && !isValidObjectId(userId)
    ensures f == Some(NotFound("Project not found")) <==>
              Truthy(userId) && isValidObjectId(userId) && project == null
    ensures f == Some(Forbidden("Only the admin can invite collaborators")) <==>
              Truthy(userId) && isValidObjectId(userId) && project != null
              && project.admin != requester.id && !IsAdmin(requester)
    ensures f == Some(NotFound("User not found")) <==>
              Truthy(userId) && isValidObjectId(userId) && project != null
              && (project.admin == requester.id || IsAdmin(requester)) && user == null
    ensures f == Some(BadRequest("Invalid invite code")) <==>
              Truthy(userId) && isValidObjectId(userId) && project != null
              && (project.admin == requester.id || IsAdmin(requester)) && user != null
              && Truthy(inviteCode) && project.inviteCode != Some(inviteCode)
    ensures f.None? <==>
              Truthy(userId) && isValidObjectId(userId) && project != null
              && (project.admin == requester.id || IsAdmin(requester)) && user != null
              && (!Truthy(inviteCode) || project.inviteCode == Some(inviteCode))
  {
    if !Truthy(userId) then Some(BadRequest("User ID required"))
    else if !isValidObjectId(userId) then Some(BadRequest("Invalid user ID"))
    else if project == null then Some(NotFound("Project not found"))
    else if project.admin != requester.id && !IsAdmin(requester) then
      Some(Forbidden("Only the admin can invite collaborators"))
    else if user == null then Some(NotFound("User not found"))
    else if Truthy(inviteCode) && project.inviteCode != Some(inviteCode) then
      Some(BadRequest("Invalid invite code"))
    else None
  }

  /** POST `/:projectId/collaborators`: the first refusal of
      `AddCollaboratorRefusal` is the answer, and nothing changes. Otherwise
      the user is added unless already a collaborator (no duplicate, and
      success either way), and a newly added user's `projectsJoined` gains the
      project. */
  method AddCollaborator(projects: ProjectCollection, users: UserCollection, requester: Claims,
                         projectId: Id, userId: string, inviteCode: string,
                         isValidObjectId: string -> bool, now: int, hashOf: string -> string)
    returns (r: Response<ProjectView>)
    modifies ProjectSet(projects.FindById(projectId))`collaborators
    modifies UserSet(users.FindById(userId))`projectsOwned, UserSet(users.FindById(userId))`projectsJoined,
             UserSet(users.FindById(userId))`password, UserSet(users.FindById(userId))`updatedAt,
             UserSet(users.FindById(userId))`passwordModified
    ensures var refusal := old(AddCollaboratorRefusal(requester, userId, inviteCode, isValidObjectId,
                                                      projects.FindById(projectId), users.FindById(userId)));
            && (r.Fail? <==> refusal.Some?)
            && (refusal.Some? ==> r == Fail(refusal.value))
    ensures r.Fail? ==> unchanged(ProjectSet(projects.FindById(projectId))) && unchanged(UserSet(users.FindById(userId)))
    ensures var p := projects.FindById(projectId);
            var u := users.FindById(userId);
            r.Ok? ==>
              && p != null && u != null
              && p.collaborators == AddIfAbsent(old(p.collaborators), userId)
              && r == Ok(p.View())
              && (userId in old(p.collaborators) ==> unchanged(u))
              && (userId !in old(p.collaborators) ==>
                    && u.projectsJoined == AddIfAbsent(old(u.projectsJoined), p.id)
                    && u.projectsOwned == old(u.projectsOwned)
                    && SavedAt(u, now, hashOf))
    ensures var p := projects.FindById(projectId);
            p != null && old(p.Valid()) ==> p.Valid()
  {
    if !Truthy(userId) {
      return Fail(BadRequest("User ID required"));
    }
    if !isValidObjectId(userId) {
      return Fail(BadRequest("Invalid user ID"));
    }
    var project := projects.FindById(projectId);
    if project == null {
      return Fail(NotFound("Project not found"));
    }
    if project.admin != requester.id && !IsAdmin(requester) {
      return Fail(Forbidden("Only the admin can invite collaborators"));
    }
    var user := users.FindById(userId);
    if user == null {
      return Fail(NotFound("User not found"));
    }
    if Truthy(inviteCode) && project.inviteCode != Some(inviteCode) {
      return Fail(BadRequest("Invalid invite code"));
    }
    if userId !in project.collaborators {
      AddIfAbsentProperties(project.collaborators, userId);
      project.collaborators := project.collaborators + [userId];
      user.UpdateProjectAssociations(project.id, false, now, hashOf);
    }
    r := Ok(project.View());
  }

  /** GET `/:projectId` with the access check its comment intends: 404
      without the project; allowed to its owner, to a collaborator while the
      session is active, and to role 'admin'; everybody else gets 403. */
  function GetProject(projects: ProjectCollection, requester: Claims, projectId: Id): (r: Response<ProjectView>)
    reads projects, projects.projects
    ensures projects.FindById(projectId) == null <==> r == Fail(NotFound("Project not found"))
    ensures projects.FindById(projectId) != null ==>
              var p := projects.FindById(projectId);
              (r == Ok(p.View()) <==>
                 p.owner == requester.id || (requester.id in p.collaborators && p.sessionActive) || IsAdmin(requester))
              && (r.Ok? ==> r == Ok(p.View()))
              && (!(p.owner == requester.id || (requester.id in p.collaborators && p.sessionActive) || IsAdmin(requester))
                  <==> r == Fail(Forbidden("Not authorized to access this project")))
  {
    var p := projects.FindById(projectId);
    if p == null then Fail(NotFound("Project not found"))
    else
      var isOwner := p.owner == requester.id;
      var isCollaborator := requester.id in p.collaborators && p.sessionActive;
      if !isOwner && !isCollaborator && !IsAdmin(requester) then
        Fail(Forbidden("Not authorized to access this project"))
      else Ok(p.View())
  }

  /** GET `/:projectId` as written: the project is loaded with its
      collaborators populated into user documents, and `includes` compares the
      requester's id string with those documents by `==`, which never holds.
      So only the owner and role 'admin' get the project; every collaborator
      who owns nothing gets 403, active session or not. */
  function GetProjectAsWritten(projects: ProjectCollection, requester: Claims, projectId: Id): (r: Response<ProjectView>)
    reads projects, projects.projects
    ensures projects.FindById(projectId) == null <==> r == Fail(NotFound("Project not found"))
    ensures projects.FindById(projectId) != null ==>
              var p := projects.FindById(projectId);
              (r.Ok? <==> p.owner == requester.id || IsAdmin(requester))
              && (r.Ok? ==> r == Ok(p.View()))
              && (!(p.owner == requester.id || IsAdmin(requester))
                  <==> r == Fail(Forbidden("Not authorized to access this project")))
  {
    var p := projects.FindById(projectId);
    if p == null then Fail(NotFound("Project not found"))
    else
      var isOwner := p.owner == requester.id;
      // a populated entry is a document, never equal to the id string
      var isCollaborator := false;
      if !isOwner && !isCollaborator && !IsAdmin(requester) then
        Fail(Forbidden("Not authorized to access this project"))
      else Ok(p.View())
  }

  /** An active collaborator who is neither the owner nor an admin is shut out
      as written, though the comment above the check means to let them in. */
  lemma ActiveCollaboratorShutOut(projects: ProjectCollection, requester: Claims, projectId: Id)
    requires projects.FindById(projectId) != null
    requires var p := projects.FindById(projectId);
             p.owner != requester.id && requester.id in p.collaborators && p.sessionActive && !IsAdmin(requester)
    ensures GetProjectAsWritten(projects, requester, projectId) == Fail(Forbidden("Not authorized to access this project"))
    ensures GetProject(projects, requester, projectId) == Ok(projects.FindById(projectId).View())
  {
  }

  /** POST `/join`: a missing code is refused; a code no active session has
      gives 404; a member gets 400 and nothing changes; otherwise the
      requester is appended to the collaborators, the others keep their order,
      and the requester's `projectsJoined` gains the project. */
  method JoinProject(projects: ProjectCollection, users: UserCollection, requester: Claims,
                     inviteCode: string, now: int, hashOf: string -> string)
    returns (r: Response<ProjectView>)
    modifies ProjectSet(FindActiveByInvite(projects.projects, inviteCode))`collaborators
    modifies UserSet(users.FindById(requester.id))`projectsOwned, UserSet(users.FindById(requester.id))`projectsJoined,
             UserSet(users.FindById(requester.id))`password, UserSet(users.FindById(requester.id))`updatedAt,
             UserSet(users.FindById(requester.id))`passwordModified
    ensures var p := old(FindActiveByInvite(projects.projects, inviteCode));
            var u := users.FindById(requester.id);
            && (!Truthy(inviteCode) <==> r == Fail(BadRequest("Invite code required")))
            && (Truthy(inviteCode) && p == null <==> r == Fail(NotFound("Invalid or expired invite code")))
            && (Truthy(inviteCode) && p != null && requester.id in old(p.collaborators) <==>
                  r == Fail(BadRequest("Already a collaborator")))
            && (Truthy(inviteCode) && p != null && requester.id !in old(p.collaborators) && u == null <==>
                  r == Fail(ServerError("Server error")))
            && (r.Ok? <==> Truthy(inviteCode) && p != null && requester.id !in old(p.collaborators) && u != null)
            // the project is saved before the user is looked up, so the 500
            // leaves the requester among the collaborators
            && (p != null ==>
                  if Truthy(inviteCode) && requester.id !in old(p.collaborators)
                  then p.collaborators == old(p.collaborators) + [requester.id]
                  else unchanged(p))
            && (p != null && old(p.Valid()) ==> p.Valid())
            && (r.Ok? ==>
                  && r == Ok(p.View())
                  && u.projectsJoined == AddIfAbsent(old(u.projectsJoined), p.id)
                  && u.projectsOwned == old(u.projectsOwned)
                  && SavedAt(u, now, hashOf))
            && (r.Fail? ==> unchanged(UserSet(u)))
  {
    if !Truthy(inviteCode) {
      return Fail(BadRequest("Invite code required"));
    }
    var project := FindActiveByInvite(projects.projects, inviteCode);
    if project == null {
      return Fail(NotFound("Invalid or expired invite code"));
    }
    if requester.id in project.collaborators {
      return Fail(BadRequest("Already a collaborator"));
    }
    AddIfAbsentProperties(project.collaborators, requester.id);
    project.collaborators := project.collaborators + [requester.id];
    var user := users.FindById(requester.id);
    if user == null {
      return Fail(ServerError("Server error"));
    }
    user.UpdateProjectAssociations(project.id, false, now, hashOf);
    r := Ok(project.View());
  }

  /** `${FRONTEND_URL}/meeting/${project._id}`. */
  function InviteLink(frontendUrl: string, projectId: Id): (link: string)
    ensures |link| == |frontendUrl| + 9 + |projectId|
    ensures link[..|frontendUrl|] == frontendUrl
    ensures link[|frontendUrl|..|frontendUrl| + 9] == "/meeting/"
    ensures link[|frontendUrl| + 9..] == projectId
  {
    frontendUrl + "/meeting/" + projectId
  }

  /** POST `/:projectId/invite`: only the owner may call it (role 'admin'
      does not suffice). Every call rotates the code, even while a session is
      active, activates the session and resets the collaborators to
      `[owner]`. The `projectsJoined` pull that follows matches the users of
      the NEW list, so only the owner's record can change; users who had
      joined keep the project in `projectsJoined`. */
  method GenerateInvite(projects: ProjectCollection, users: UserCollection, requester: Claims,
                        projectId: Id, uuid: string, frontendUrl: string)
    returns (r: Response<Invite>)
    modifies ProjectSet(projects.FindById(projectId))`collaborators,
             ProjectSet(projects.FindById(projectId))`inviteCode,
             ProjectSet(projects.FindById(projectId))`sessionActive
    modifies users.users`projectsJoined
    ensures var p := projects.FindById(projectId);
            && (p == null <==> r == Fail(NotFound("Project not found")))
            && (p != null && p.owner != requester.id <==>
                  r == Fail(Forbidden("Only the project owner can generate invites")))
            && (r.Ok? <==> p != null && p.owner == requester.id)
            && (r.Fail? ==> unchanged(ProjectSet(p)))
            && (p != null && p.owner == requester.id ==>
                  && r == Ok(Invite(InviteCodeOf(uuid), InviteLink(frontendUrl, p.id)))
                  && p.collaborators == [p.owner]
                  && p.inviteCode == Some(InviteCodeOf(uuid))
                  && p.sessionActive
                  && p.files == old(p.files)
                  && (old(p.Valid()) ==> p.Valid()))
    ensures var p := projects.FindById(projectId);
            forall u :: u in users.users ==>
              u.projectsJoined == (if r.Ok? && u.id == p.owner then RemoveAll(old(u.projectsJoined), p.id)
                                   else old(u.projectsJoined))
  {
    var project := projects.FindById(projectId);
    if project == null {
      return Fail(NotFound("Project not found"));
    }
    if project.owner != requester.id {
      return Fail(Forbidden("Only the project owner can generate invites"));
    }
    var code := InviteCodeOf(uuid);
    var link := InviteLink(frontendUrl, project.id);
    project.collaborators := [project.owner];
    project.inviteCode := Some(code);
    project.sessionActive := true;
    // The pull matches the users listed in the collaborators as they are
    // now, after the reset to the owner alone.
    var pulled := project.collaborators;
    forall s: seq<Id> | project.id !in s
      ensures RemoveAll(s, project.id) == s
    {
      RemoveAllAbsent(s, project.id);
    }
    forall u | u in users.users && u.id in pulled && project.id in u.projectsJoined {
      u.projectsJoined := RemoveAll(u.projectsJoined, project.id);
    }
    r := Ok(Invite(code, link));
  }

  /** DELETE `/:projectId/collaborators/:userId` (no check of who asks):
      the owner can never be removed, and that is checked before membership;
      a non-collaborator gives 404; otherwise every entry equal to the user
      is dropped, the rest keep their order, and the room of the project gets
      `userDisconnected` and then `projectUpdate`. */
  method RemoveCollaborator(projects: ProjectCollection, hub: Hub, projectId: Id, userId: Id)
    returns (r: Response<Removed>)
    modifies ProjectSet(projects.FindById(projectId))`collaborators, hub`outbox
    ensures var p := projects.FindById(projectId);
            && (p == null <==> r == Fail(NotFound("Project not found")))
            && (p != null && p.owner == userId <==> r == Fail(BadRequest("Cannot remove project owner")))
            && (p != null && p.owner != userId && userId !in old(p.collaborators) <==>
                  r == Fail(NotFound("User is not a collaborator")))
            && (r.Ok? <==> p != null && p.owner != userId && userId in old(p.collaborators))
            && (r.Fail? ==> hub.outbox == old(hub.outbox) && unchanged(ProjectSet(p)))
            && (r.Ok? ==>
                  && p.collaborators == RemoveAll(old(p.collaborators), userId)
                  && r == Ok(Removed("Collaborator removed", p.View()))
                  && hub.outbox == old(hub.outbox) + FanOut(hub.Members(p.id), UserDisconnected(userId))
                                                  + FanOut(hub.Members(p.id), ProjectUpdate(p.View()))
                  && (old(p.Valid()) ==> p.Valid()))
  {
    var project := projects.FindById(projectId);
    if project == null {
      return Fail(NotFound("Project not found"));
    }
    if project.owner == userId {
      return Fail(BadRequest("Cannot remove project owner"));
    }
    if userId !in project.collaborators {
      return Fail(NotFound("User is not a collaborator"));
    }
    if NoDuplicates(project.collaborators) {
      RemoveAllNoDuplicates(project.collaborators, userId);
    }
    project.collaborators := RemoveAll(project.collaborators, userId);
    hub.EmitToRoom(project.id, UserDisconnected(userId));
    hub.EmitToRoom(project.id, ProjectUpdate(project.View()));
    r := Ok(Removed("Collaborator removed", project.View()));
  }

  /** GET `/:projectId/files/:fileName`: only for the owner or a
      collaborator (404 otherwise). A missing file is created with the
      starter text and returned; an existing one is returned unchanged. */
  method GetFile(projects: ProjectCollection, requester: Claims, projectId: Id, fileName: string, now: int)
    returns (r: Response<FileBody>)
    modifies ProjectSet(projects.FindForMember(projectId, requester.id))`files
    ensures var p := old(projects.FindForMember(projectId, requester.id));
            && (p == null <==> r == Fail(NotFound("Project not found or unauthorized")))
            && (r.Ok? <==> p != null)
            && (p != null ==>
                  match FindFile(old(p.files), fileName)
                  case Some(i) => unchanged(p)
                                  && r == Ok(FileBody(p.files[i].content, p.files[i].lastModified))
                  case None => p.files == old(p.files) + [File(fileName, StarterContent, now)]
                               && r == Ok(FileBody(StarterContent, now)))
            && (p != null && old(p.Valid()) ==> p.Valid())
  {
    var project := projects.FindForMember(projectId, requester.id);
    if project == null {
      return Fail(NotFound("Project not found or unauthorized"));
    }
    match FindFile(project.files, fileName)
    case Some(i) =>
      r := Ok(FileBody(project.files[i].content, project.files[i].lastModified));
    case None =>
      var file := File(fileName, StarterContent, now);
      if UniqueNames(project.files) {
        SaveIntoFilesProperties(project.files, fileName, StarterContent, now);
      }
      project.files := project.files + [file];
      r := Ok(FileBody(file.content, file.lastModified));
  }

  /** POST `/:projectId/files/:fileName`: only for the owner or a
      collaborator; empty content is refused before anything changes; then
      the file is overwritten or created (last write wins: there is no
      version check) and the whole room, the saving user's sockets included,
      gets `codeChange`. */
  method SaveFile(projects: ProjectCollection, hub: Hub, requester: Claims, projectId: Id,
                  fileName: string, content: string, now: int)
    returns (r: Response<FileSaved>)
    modifies ProjectSet(projects.FindForMember(projectId, requester.id))`files, hub`outbox
    ensures var p := old(projects.FindForMember(projectId, requester.id));
            && (p == null <==> r == Fail(NotFound("Project not found or unauthorized")))
            && (p != null && !Truthy(content) <==> r == Fail(BadRequest("Content is required")))
            && (r.Ok? <==> p != null && Truthy(content))
            && (r.Fail? ==> hub.outbox == old(hub.outbox) && unchanged(ProjectSet(p)))
            && (r.Ok? ==>
                  && p.files == SaveIntoFiles(old(p.files), fileName, content, now)
                  && r == Ok(FileSaved("File updated", content, now))
                  && hub.outbox == old(hub.outbox)
                                   + FanOut(hub.Members(p.id), CodeChange(p.id, fileName, content, requester.id))
                  && (old(p.Valid()) ==> p.Valid()))
  {
    var project := projects.FindForMember(projectId, requester.id);
    if project == null {
      return Fail(NotFound("Project not found or unauthorized"));
    }
    if !Truthy(content) {
      return Fail(BadRequest("Content is required"));
    }
    if UniqueNames(project.files) {
      SaveIntoFilesProperties(project.files, fileName, content, now);
    }
    project.files := SaveIntoFiles(project.files, fileName, content, now);
    hub.EmitToRoom(project.id, CodeChange(project.id, fileName, content, requester.id));
    r := Ok(FileSaved("File updated", content, now));
  }

  /** GET `/:projectId/files`: the name and timestamp of every file, in order. */
  function ListFiles(projects: ProjectCollection, requester: Claims, projectId: Id): (r: Response<seq<FileEntry>>)
    reads projects, projects.projects
    ensures projects.FindForMember(projectId, requester.id) == null <==>
              r == Fail(NotFound("Project not found or unauthorized"))
    ensures r.Ok? <==> projects.FindForMember(projectId, requester.id) != null
    ensures r.Ok? ==> var files := projects.FindForMember(projectId, requester.id).files;
                      |r.body| == |files|
                      && forall i :: 0 <= i < |files| ==> r.body[i] == FileEntry(files[i].name, files[i].lastModified)
  {
    var p := projects.FindForMember(projectId, requester.id);
    if p == null then Fail(NotFound("Project not found or unauthorized"))
    else Ok(seq(|p.files|, i requires 0 <= i < |p.files| reads p => FileEntry(p.files[i].name, p.files[i].lastModified)))
  }

  /** POST `/:projectId/files`: only for the owner or a collaborator; a
      missing name is refused, and so is a name already in use; otherwise the
      file is appended (empty when no content is given). */
  method CreateFile(projects: ProjectCollection, requester: Claims, projectId: Id,
                    name: string, content: Option<string>, now: int)
    returns (r: Response<FileCreated>)
    modifies ProjectSet(projects.FindForMember(projectId, requester.id))`files
    ensures var p := old(projects.FindForMember(projectId, requester.id));
            && (p == null <==> r == Fail(NotFound("Project not found or unauthorized")))
            && (p != null && !Truthy(name) <==> r == Fail(BadRequest("File name is required")))
            && (p != null && Truthy(name) && FindFile(old(p.files), name).Some? <==>
                  r == Fail(BadRequest("File already exists")))
            && (r.Ok? <==> p != null && Truthy(name) && FindFile(old(p.files), name).None?)
            && (r.Fail? ==> unchanged(ProjectSet(p)))
            && (r.Ok? ==>
                  && p.files == old(p.files) + [File(name, if content.Some? then content.value else "", now)]
                  && r == Ok(FileCreated("File created", name, now))
                  && (old(p.Valid()) ==> p.Valid()))
  {
    var project := projects.FindForMember(projectId, requester.id);
    if project == null {
      return Fail(NotFound("Project not found or unauthorized"));
    }
    if !Truthy(name) {
      return Fail(BadRequest("File name is required"));
    }
    if FindFile(project.files, name).Some? {
      return Fail(BadRequest("File already exists"));
    }
    var text := if content.Some? then content.value else "";
    if UniqueNames(project.files) {
      SaveIntoFilesProperties(project.files, name, text, now);
    }
    project.files := project.files + [File(name, text, now)];
    r := Ok(FileCreated("File created", name, now));
  }
}
