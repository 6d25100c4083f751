/** Scheduled meetings (backend/routes/meetings.js over the Meeting document
    of backend/models/Meeting.js): creation by the owner or an admin, and the
    time-window gate on access. Times are integer timestamps; the current time
    is the parameter `now`; the fresh `uuidv4()` is the parameter `meetingId`. */
module Meetings {
  import opened Base
  import opened ProjectModel

  datatype Meeting = Meeting(projectId: Id, meetingId: Id, startTime: int, endTime: int, createdBy: Id)

  /** The body of a successful create: the stored meeting and its link. */
  datatype Created = Created(meeting: Meeting, meetingLink: string)

  /** The body of a successful access: the meeting with its project populated. */
  datatype Admitted = Admitted(meeting: Meeting, project: ProjectView)

  /** `${FRONTEND_URL}/projects/?meetingId=${meetingId}`. */
  function MeetingLink(frontendUrl: string, meetingId: Id): (link: string)
    ensures |link| >= |meetingId| && link[|link| - |meetingId|..] == meetingId
    ensures |link| >= |frontendUrl| && link[..|frontendUrl|] == frontendUrl
  {
    frontendUrl + "/projects/?meetingId=" + meetingId
  }

  /** The first stored meeting with the given meetingId. */
  function FindMeeting(ms: seq<Meeting>, meetingId: Id): (r: Option<Meeting>)
    ensures r.Some? ==> r.value in ms && r.value.meetingId == meetingId
    ensures r.None? ==> forall m :: m in ms ==> m.meetingId != meetingId
  {
    if ms == [] then None
    else if ms[0].meetingId == meetingId then Some(ms[0])
    else FindMeeting(ms[1..], meetingId)
  }

  /** `now < meeting.startTime || now > meeting.endTime`: both ends of the
      window are inside it. */
  predicate Inactive(m: Meeting, now: int)
  {
    now < m.startTime || now > m.endTime
  }

  /** The meetings collection. */
  class MeetingCollection {
    var meetings: seq<Meeting>

    constructor ()
      ensures meetings == []
    {
      meetings := [];
    }

    /** POST `/:projectId`: 404 without the project, 403 unless the requester
        owns it or has role 'admin'; otherwise the meeting is stored as given
        (no check that the end comes after the start). */
    method Create(projects: ProjectCollection, requester: Claims, projectId: Id,
                  startTime: int, endTime: int, meetingId: Id, frontendUrl: string)
      returns (r: Response<Created>)
      modifies this
      ensures projects.FindById(projectId) == null ==> r == Fail(NotFound("Project not found"))
      ensures (projects.FindById(projectId) != null && projects.FindById(projectId).owner != requester.id
               && !IsAdmin(requester)) ==> r == Fail(Forbidden("Access denied"))
      ensures r.Fail? ==> meetings == old(meetings)
      ensures r.Ok? <==> projects.FindById(projectId) != null
                         && (projects.FindById(projectId).owner == requester.id || IsAdmin(requester))
      ensures r.Ok? ==> r.body.meeting == Meeting(projectId, meetingId, startTime, endTime, requester.id)
                        && r.body.meetingLink == MeetingLink(frontendUrl, meetingId)
                        && meetings == old(meetings) + [r.body.meeting]
    {
      var project := projects.FindById(projectId);
      if project == null {
        return Fail(NotFound("Project not found"));
      }
      if project.owner != requester.id && !IsAdmin(requester) {
        return Fail(Forbidden("Access denied"));
      }
      var meeting := Meeting(projectId, meetingId, startTime, endTime, requester.id);
      meetings := meetings + [meeting];
      r := Ok(Created(meeting, MeetingLink(frontendUrl, meetingId)));
    }
  }

  /** GET `/:meetingId`: the guards in the order the handler runs them. */
  function Access(ms: seq<Meeting>, projects: seq<Project>, meetingId: Id, now: int,
                  requester: Claims): (r: Response<Admitted>)
    reads projects
    // an unknown meeting id: 404
    ensures FindMeeting(ms, meetingId).None? <==> r == Fail(NotFound("Meeting not found"))
    // the window is checked first: outside it everybody, collaborators and
    // admins included, is told that the meeting is not active
    ensures FindMeeting(ms, meetingId).Some? ==>
              (Inactive(FindMeeting(ms, meetingId).value, now) <==> r == Fail(Forbidden("Meeting is not active")))
    // inside it, a collaborator of the meeting's project or an admin is let in
    ensures r.Ok? ==> Some(r.body.meeting) == FindMeeting(ms, meetingId)
                      && !Inactive(r.body.meeting, now)
                      && FindProjectById(projects, r.body.meeting.projectId) != null
                      && r.body.project == FindProjectById(projects, r.body.meeting.projectId).View()
                      && (requester.id in r.body.project.collaborators || IsAdmin(requester))
    ensures r == Fail(Forbidden("Not a project collaborator")) <==>
              FindMeeting(ms, meetingId).Some? && !Inactive(FindMeeting(ms, meetingId).value, now)
              && FindProjectById(projects, FindMeeting(ms, meetingId).value.projectId) != null
              && requester.id !in FindProjectById(projects, FindMeeting(ms, meetingId).value.projectId).collaborators
              && !IsAdmin(requester)
    // a meeting whose project was deleted populates to null: 500
    ensures r == Fail(ServerError("Server error")) <==>
              FindMeeting(ms, meetingId).Some? && !Inactive(FindMeeting(ms, meetingId).value, now)
              && FindProjectById(projects, FindMeeting(ms, meetingId).value.projectId) == null
    // and every request that passes all the guards is let in
    ensures r.Ok? <==>
              FindMeeting(ms, meetingId).Some? && !Inactive(FindMeeting(ms, meetingId).value, now)
              && FindProjectById(projects, FindMeeting(ms, meetingId).value.projectId) != null
              && (requester.id in FindProjectById(projects, FindMeeting(ms, meetingId).value.projectId).collaborators
                  || IsAdmin(requester))
  {
    match FindMeeting(ms, meetingId)
    case None => Fail(NotFound("Meeting not found"))
    case Some(meeting) =>
      if Inactive(meeting, now) then Fail(Forbidden("Meeting is not active"))
      else
        var project := FindProjectById(projects, meeting.projectId);
        // populate('projectId') yields null for a deleted project, and
        // reading its collaborators throws
        if project == null then Fail(ServerError("Server error"))
        else if requester.id !in project.collaborators && !IsAdmin(requester) then
          Fail(Forbidden("Not a project collaborator"))
        else Ok(Admitted(meeting, project.View()))
  }

  /** A meeting from 600 to 660: at 599 the window is closed; at 630 a
      non-collaborator is refused and a collaborator admitted; at 660, the
      last instant of the window, the collaborator is still admitted. */
  lemma WindowScenario(p: Project, meetingId: Id, member: Claims, stranger: Claims)
    requires member.id in p.collaborators && stranger.id !in p.collaborators && !IsAdmin(stranger)
    ensures var ms := [Meeting(p.id, meetingId, 600, 660, p.owner)];
            && Access(ms, [p], meetingId, 599, member) == Fail(Forbidden("Meeting is not active"))
            && Access(ms, [p], meetingId, 630, stranger) == Fail(Forbidden("Not a project collaborator"))
            && Access(ms, [p], meetingId, 630, member).Ok?
            && Access(ms, [p], meetingId, 660, member).Ok?
            && Access(ms, [p], meetingId, 661, member) == Fail(Forbidden("Meeting is not active"))
  {
  }
}
