# SpaceCode collaboration core in Dafny

SpaceCode is a collaborative code editor. An Express server keeps users,
projects and meetings in MongoDB. It authenticates requests with bearer
tokens and lets the collaborators of a project join a socket.io room, where
edits, cursor moves and presence notices are relayed. A React client guards
its routes and validates the registration form before sending it.

This project models that core and proves what it promises:

- **Bearer-token middleware** (`AuthMiddleware`): how the token is taken
  from the header (the first `Bearer ` is cut out, wherever it stands), the
  verification outcome, and the case-insensitive role gate.
- **Account routes** (`AccountRoutes`): register, login, listing users and
  deleting a user, over the user collection of `UserModel`.
  - `UserModel` also holds the pre-save password hook and the project
    association methods.
- **Project routes** (`ProjectRoutes`): every handler of the projects
  router, over the `Project` class and collection of `ProjectModel`.
  - This covers the collaborator list, invite sessions, files, and the
    room notifications sent through the hub.
- **Meetings** (`Meetings`): creation by the owner or an admin, and the
  time-window gate on access.
- **Collaboration hub** (`CollaborationHub`): the socket handshake and
  every event handler.
  - It runs over the part of socket.io's adapter it relies on: rooms and
    their sockets, each socket's rooms, and the private room named by the
    socket id.
  - Every emit appends deliveries to an outbox, so "who receives what" is
    a statement about the outbox.
- **Client** (`RegisterPage`, `ProtectedRoute`): the password rule and the
  ordered guards of the registration form, and the redirect cascade of the
  route guard.
- **Shared pieces**: `Base` holds ids, claims, error kinds and the
  sequence helpers that stand for JavaScript array idioms. `Text` holds the
  JavaScript string operations the code uses: first-occurrence `replace`,
  `trim` with the ECMAScript whitespace set, `toLowerCase` and `startsWith`.

Each HTTP answer is a `Response`: `Ok(body)`, or `Fail(failure)` whose
failure kind is the status (400 `BadRequest`, 401 `Unauthorized`, 403
`Forbidden`, 404 `NotFound`, 500 `ServerError`) and carries the exact
message. Handlers that change documents are methods on the document objects,
with `modifies` frames naming exactly the fields they touch. A refused
request leaves every document as it was. Read-only handlers
are functions.

Parameters stand in for what the model cannot see:

- the clock (`now`: an integer timestamp);
- fresh ids and `uuidv4()` values;
- `bcrypt.hash` and `bcrypt.compare`;
- `jwt.sign` and `jwt.verify`;
- `mongoose.Types.ObjectId.isValid`;
- `FRONTEND_URL`.

The model follows the code where one might expect otherwise:

- Generating an invite always rotates the code and resets the collaborators to the owner.
  This happens even while a session is already active.
- Saving a file has no version or conflict check: the last write wins.
- Creating a meeting does not check that the end comes after the start.
- The meeting access route answers with the meeting, its project populated.
- Removing a collaborator does not check who asks.
- The register route stores no username (see Findings).

## Model

| member | source | states |
|---|---|---|
| AuthMiddleware.Authenticate | backend/middleware/auth.js:3-22 | 401 "No token provided" exactly when the header is missing or nothing is left after cutting out `Bearer `. 401 "Invalid token" exactly when verification fails. The request passes exactly when the role check is off or the claimed role equals the required one ignoring case, and then `req.user` is the decoded claim. A 403 "Requires <role> role" comes exactly when a role is required and a non-empty token verifies but its role is absent or differs. |
| AuthMiddleware.ExtractToken | backend/middleware/auth.js:4 | No header gives no token. A header that begins with `Bearer ` loses exactly that prefix. A header without `Bearer ` anywhere is the token itself. |
| AuthMiddleware.BearerHeaderToken | backend/middleware/auth.js:4 | A header `Bearer <t>` yields exactly the token `t`. |
| AuthMiddleware.RawHeaderToken | backend/middleware/auth.js:4 | A header with no `Bearer ` anywhere is taken whole as the token. |
| AuthMiddleware.UnanchoredRemoval | backend/middleware/auth.js:4 | The removal is not anchored: `xBearer abc` yields the token `xabc`. |
| AuthMiddleware.MountedUncalled | backend/routes/auth.js:45-52 | The factory mounted without being called never answers and never passes a request on. |
| AuthMiddleware.MountedCalled | backend/middleware/auth.js:3-18 | The factory called without a role answers every request exactly as `Authenticate` with no role requirement. |
| AuthMiddleware.UncalledStallsValidRequest | backend/routes/meetings.js:8-34 | A verified bearer token reaches the handler with its claims when the factory is called, and stalls when it is mounted uncalled. |
| AccountRoutes.StoredRole | backend/models/User.js:8 | A new user without a role is stored with role 'admin'; a given role is stored as given. |
| AccountRoutes.RegisterRefusal | backend/routes/auth.js:11-20 | Register refuses in order. A stored email gives 400 "User already exists". Asking for role 'admin' without an admin caller gives 403 "Cannot create admin user". A missing username, email or password fails schema validation inside save: 500 "Server error" exactly when the first two refusals do not apply and validation fails. No refusal exactly when none applies. |
| AccountRoutes.NoCallerCannotAskForAdmin | backend/routes/auth.js:8-17 | The register route runs with no authenticated caller, so a fresh email asking for role 'admin' is always refused with 403. |
| AccountRoutes.DefaultRegistrationIsAdmin | backend/routes/auth.js:15-19 | A role-less registration with a username passes every guard and is stored as an admin. |
| AccountRoutes.UsernameOmittedNeverRegisters | backend/routes/auth.js:19-20 | Without a username every register request is refused, whatever the other fields; when neither the email nor the role refuses it, the answer is 500 "Server error". |
| AccountRoutes.Register | backend/routes/auth.js:8-27 | A refused request stores nothing and answers the refusal. Otherwise the new user is appended and nothing else changes. Its password is the hash of the given one, its role is defaulted, both project lists are empty, and both timestamps are the current time. The answer is a token for its id and role. Unique ids and emails stay unique. |
| AccountRoutes.RegisterAsWritten | backend/routes/auth.js:8-27 | As written, register never succeeds and never stores a user: a stored email gives 400 "User already exists", an unauthorised 'admin' request 403 "Cannot create admin user", and every other request 500 "Server error". |
| AccountRoutes.Login | backend/routes/auth.js:29-43 | An unknown email gives 400 "Invalid credentials". A stored email with no password gives 500, because the hash comparison rejects a missing argument. Every other failure is the same 400. Success happens exactly when the email is stored and the password matches its hash, and then the token is signed over that user's id and role. |
| AccountRoutes.LoginFailuresIndistinguishable | backend/routes/auth.js:32-36 | An unknown email, with any password or none, and a wrong password for a stored email get identical answers. |
| AccountRoutes.LoginTokenAuthenticates | backend/routes/auth.js:38 | A login token sent back as `Bearer <token>` passes the middleware with the stored id and role. It passes an 'admin' role requirement exactly when the stored role is 'admin' ignoring case. |
| AccountRoutes.ListUsers | backend/routes/auth.js:45-49 | 403 "Access denied" exactly when the role is not exactly 'admin'; success exactly otherwise. The answer holds every stored user, in order, each with every stored field but the password, `createdAt` included. |
| AccountRoutes.DeleteUser | backend/routes/auth.js:51-59 | A non-admin gets 403 and nothing changes. For role 'admin' the user with that id is gone and every other user stays. The answer is "User deleted" whether or not the id was stored. Uniqueness is kept. |
| UserModel.User.constructor | backend/models/User.js:4-13 | A new user takes the given fields, the role defaults to 'admin', both project lists start empty, `createdAt` and `updatedAt` are the current time, and the password counts as modified. |
| UserModel.User.Save | backend/models/User.js:15-22 | The pre-save hook hashes the password only when it was modified, and refreshes `updatedAt` on every save. |
| UserModel.User.UpdateProjectAssociations | backend/models/User.js:25-37 | The project is added to `projectsOwned` or to `projectsJoined` only when absent; the other list is untouched; then the user is saved. |
| UserModel.User.RemoveJoinedProject | backend/models/User.js:40-44 | Every occurrence of the project leaves `projectsJoined`, the rest keep their order, and the user is saved. |
| UserModel.FindUserById | backend/routes/projects.js:27 | `findById`: returns a stored user with that id, or null exactly when no user has it. |
| UserModel.FindUserByEmail | backend/routes/auth.js:11 | `findOne({ email })`: returns a stored user with that email, or null exactly when none has it. |
| UserModel.SchemaValid | backend/models/User.js:5-7 | The `required` validators: a username is present, and username, email and password are non-empty. |
| UserModel.WithoutId | backend/routes/auth.js:54 | After `findByIdAndDelete` no user has the id, and exactly the users with other ids remain. |
| UserModel.WithoutIdKeepsUnique | backend/models/User.js:5-6 | Deleting a user keeps ids and emails unique. |
| UserModel.UserCollection.FindById | backend/routes/projects.js:27 | The collection's `findById`, as `FindUserById`. |
| UserModel.UserCollection.FindByEmail | backend/routes/auth.js:32 | The collection's `findOne({ email })`, as `FindUserByEmail`. |
| Base.RemoveAll | backend/models/User.js:42 | `filter(id => id !== x)`: exactly the entries other than `x` remain, and the list shrinks when `x` was there. |
| Base.RemoveAllAppend | backend/routes/projects.js:226 | Filtering distributes over concatenation. |
| Base.RemoveAllAbsent | backend/routes/projects.js:200-203 | Filtering out an absent id changes nothing. |
| Base.RemoveAllIdempotent | backend/routes/projects.js:226 | Filtering twice is filtering once. |
| Base.RemoveAllNoDuplicates | backend/routes/projects.js:226 | Filtering keeps a duplicate-free list duplicate-free. |
| Base.AddIfAbsentProperties | backend/models/User.js:28-34 | `if (!includes(x)) push(x)`: afterwards `x` is present, the old list is a prefix, repeating changes nothing, and no duplicate appears. |
| Base.AddIfAbsent | backend/models/User.js:28-34 | The result holds exactly the old entries and `x`. The old list is a prefix, and the list grows by one exactly when `x` was absent. |
| Text.ToLower | backend/middleware/auth.js:15 | Lower-casing keeps the length and maps every character. |
| Text.ToLowerEqualIff | backend/middleware/auth.js:15 | Two strings lower-case equally exactly when they agree position by position ignoring case. |
| Text.IndexFrom | backend/middleware/auth.js:4 | The search finds the first occurrence at or after the start, and finds none exactly when there is none. |
| Text.ReplaceFirst | backend/middleware/auth.js:4 | `String.prototype.replace` with a string pattern: only the first occurrence is replaced, and a string without one is returned unchanged. |
| Text.TrimStart | client/src/components/Auth/Register.jsx:26 | Leading JavaScript whitespace is removed: the result is a suffix starting with non-whitespace, or empty. |
| Text.TrimEnd | client/src/components/Auth/Register.jsx:26 | Trailing JavaScript whitespace is removed: the result is a prefix ending in non-whitespace, or empty. |
| Text.TrimEmptyIff | client/src/components/Auth/Register.jsx:26-33 | A string trims to empty exactly when every character is whitespace. |
| ProjectModel.Project.constructor | backend/routes/projects.js:18-24 | A new project is owned and administered by its creator, who is the only collaborator. It has no invite code, no active session and no files, and satisfies the project invariant. |
| ProjectModel.FindFile | backend/routes/projects.js:262 | `files.find(f => f.name === name)`: the first file with the name, or none exactly when no file has it. |
| ProjectModel.Listed | backend/routes/projects.js:41-46 | The list query's filter: the user owns the project, or collaborates on it while a code is set and the session is active. |
| ProjectModel.FindProjectById | backend/routes/projects.js:174 | `findById`: a stored project with that id, or null exactly when none has it. |
| ProjectModel.FindActiveByInvite | backend/routes/projects.js:144 | `findOne({ inviteCode, sessionActive: true })`: a project with that code and an active session, or null exactly when none has both. |
| ProjectModel.ListedViews | backend/routes/projects.js:38-55 | The list route returns exactly the projects the user owns, or the ones they collaborate on while a code is set and a session is active. |
| ProjectModel.ProjectCollection.FindById | backend/routes/projects.js:115 | The collection's `findById`, as `FindProjectById`. |
| ProjectModel.ProjectCollection.FindForMember | backend/routes/projects.js:253-256 | `findOne({ _id, $or: [owner, collaborators] })`: the project when the user owns it or collaborates on it, null otherwise. |
| ProjectRoutes.InviteCodeOf | backend/routes/projects.js:190 | `uuidv4().slice(0, 8)`: the first eight characters, or all of a shorter string. |
| ProjectRoutes.InviteLink | backend/routes/projects.js:191 | The link is the frontend URL, then `/meeting/`, then the project id. The `http://localhost:5173` fallback for an unset `FRONTEND_URL` is the caller's value of that parameter. |
| ProjectRoutes.SaveIntoFiles | backend/routes/projects.js:295-302 | Every file keeps its name and position; every file with another name is kept as it was. The list grows by one exactly when the name was new, and the new last file holds the saved content and time. |
| ProjectRoutes.AddCollaboratorRefusal | backend/routes/projects.js:59-93 | The guards run in order: user id required, user id valid, project found, requester is the admin or has role 'admin', user found, a supplied invite code matches. Each refusal is chosen exactly when the earlier guards pass and its own fails, and there is none exactly when all pass. |
| ProjectRoutes.SaveIntoFilesProperties | backend/routes/projects.js:292-300 | A save leaves exactly one file with the name, holding the saved content and time. Every other file stays in place. The list grows only when the name was new. Names stay unique. |
| ProjectRoutes.CreateProject | backend/routes/projects.js:10-35 | A missing name gives 400 and changes nothing. Otherwise exactly one new, valid project is appended, with the requester as owner, admin and only collaborator. Success happens exactly when the name is set and the requester's record exists. The record's `projectsOwned` then gains the project and the record is saved. A missing requester record gives 500, but the project stays stored. |
| ProjectRoutes.AddCollaborator | backend/routes/projects.js:57-109 | The answer is the first refusal, and then neither the project nor the user changes. Otherwise the collaborators hold the user, added only if absent. A user already present is left untouched. An added user's `projectsJoined` gains the project and the user is saved. Only the collaborators and the user's association and save fields can change, and the project invariant is kept. |
| ProjectRoutes.GetProject | backend/routes/projects.js:112-134 | The intended check, as the comment above it says: 404 exactly when the project is missing. Otherwise the project is returned exactly when the requester owns it, collaborates while the session is active, or has role 'admin', and the body is then exactly the project's view. 403 "Not authorized to access this project" exactly when none of the three holds. |
| ProjectRoutes.GetProjectAsWritten | backend/routes/projects.js:114-127 | As written, with collaborators populated: 404 exactly when the project is missing; otherwise the project's view exactly for the owner or role 'admin', and 403 exactly for everyone else. |
| ProjectRoutes.ActiveCollaboratorShutOut | backend/routes/projects.js:120-127 | An active collaborator who is neither owner nor admin gets 403 as written, but the project under the intended check. |
| ProjectRoutes.JoinProject | backend/routes/projects.js:137-169 | A missing code gives 400. 404 exactly when no active session has the code. 400 "Already a collaborator" exactly for a member. Success happens exactly when the code is set, a session has it, the requester is not a member and their record exists. Otherwise the requester is appended to the collaborators, and then their `projectsJoined` gains the project and the record is saved. A missing record gives 500 after the project was saved, so the requester stays a collaborator. Refusals change no user, and the invariant is kept. |
| ProjectRoutes.GenerateInvite | backend/routes/projects.js:172-211 | 404 for a missing project. 403 exactly when the requester is not the owner, even with role 'admin'; success exactly otherwise. On success the code is rotated to the first 8 characters of the uuid and the session is activated. The collaborators become exactly the owner and the link points at the project. Name, owner, admin and files cannot change. Of the users only `projectsJoined` can change, and only the owner's record can lose the project. |
| ProjectRoutes.RemoveCollaborator | backend/routes/projects.js:214-248 | 404 for a missing project. The owner can never be removed, and that is checked first. A non-member gives 404. Success happens exactly when none applies. Then exactly that user leaves the collaborators and the room gets `userDisconnected`, then `projectUpdate`. Only the collaborators can change, and nothing changes or is emitted on failure. |
| ProjectRoutes.GetFile | backend/routes/projects.js:251-276 | Non-members get 404, and success happens exactly for members. An existing file is returned and the project is untouched. A missing one is appended with the starter text and returned. Only the files can change. |
| ProjectRoutes.SaveFile | backend/routes/projects.js:279-322 | Non-members get 404. Empty content gives 400 before anything changes. Success happens exactly for a member with content. Then the file list becomes the save of the content under the name, and the whole room gets `codeChange` from the requester. Only the files can change. |
| ProjectRoutes.ListFiles | backend/routes/projects.js:325-342 | Non-members get 404, and success happens exactly for members. The answer holds the name and timestamp of every file, in order. |
| ProjectRoutes.CreateFile | backend/routes/projects.js:345-374 | Non-members get 404. A missing name gives 400 and a name in use gives 400; both change nothing. Success happens exactly when none applies. The file is then appended, empty when no content is given. Only the files can change, and names stay unique. |
| Meetings.MeetingLink | backend/routes/meetings.js:26 | The link starts with the frontend URL and ends with the meeting id. |
| Meetings.FindMeeting | backend/routes/meetings.js:37 | A stored meeting with that meeting id, or none exactly when none has it. |
| Meetings.Inactive | backend/routes/meetings.js:40 | `now < startTime \|\| now > endTime`: the window is closed at both ends. |
| Meetings.MeetingCollection.Create | backend/routes/meetings.js:8-32 | 404 for a missing project. 403 unless the requester owns it or has role 'admin'. Otherwise the meeting is appended as given and the answer carries it with its link. |
| Meetings.Access | backend/routes/meetings.js:34-53 | The guards run in order: 404 for an unknown meeting; 403 "Meeting is not active" outside the closed time window; then 500 exactly when the meeting's project is gone, because the handler reads its collaborators; then 403 for a requester neither collaborating nor 'admin'. Success happens exactly when all pass. |
| Meetings.WindowScenario | backend/routes/meetings.js:40-43 | For a window from 600 to 660: 599 and 661 are refused as inactive. At 630 a member is admitted and a stranger refused. At 660, the last instant, a member is still admitted. |
| CollaborationHub.Except | backend/sockets/collaboration.js:31 | `except(room of the sender)`: exactly the members not excluded remain, without duplicates. |
| CollaborationHub.FanOutReaches | backend/sockets/collaboration.js:31 | An emit reaches exactly the listed recipients, each with the event. |
| CollaborationHub.ExceptSenderNotReached | backend/sockets/collaboration.js:49 | A socket in its private room is never among the recipients of its own broadcast. |
| CollaborationHub.RosterKeys | backend/sockets/collaboration.js:36-40 | The roster has exactly the user ids of the room's other sockets. |
| CollaborationHub.RosterValues | backend/sockets/collaboration.js:38 | Every roster entry is the username of some other socket of that user. |
| CollaborationHub.Hub.constructor | backend/sockets/collaboration.js:3 | The hub starts with no rooms, no sockets, no users and nothing sent; the adapter invariant holds. |
| CollaborationHub.Hub.Connect | backend/sockets/collaboration.js:4-20 | A missing, empty or unverified token is refused with "Authentication error" and changes nothing. Otherwise the socket is recorded with its claims and put in its private room. The adapter invariant is kept. |
| CollaborationHub.Hub.BuildRoster | backend/sockets/collaboration.js:34-40 | The loop builds a map keyed by exactly the user ids of the other sockets in the room, each value a username of that user; it equals the reference `RosterOf`. |
| CollaborationHub.Hub.AnnounceJoin | backend/sockets/collaboration.js:31-41 | `userJoined` goes to the room except the joiner, then the roster goes to the joiner alone. The roster equals `RosterOf` of the room: exactly the user ids of the other sockets, each with the username of one of that user's sockets there. |
| CollaborationHub.Hub.JoinRoom | backend/sockets/collaboration.js:25-42 | A falsy room changes nothing and emits nothing. Otherwise the socket joins the room once, the announcements follow, and the adapter invariant is kept. The joiner's `initialState` carries `RosterOf` of the room, whose keys are exactly the other sockets' user ids and whose values are their usernames; the joiner gets no `userJoined` of its own while in its private room, and nobody else gets the roster. |
| CollaborationHub.Hub.JoinPreservesValid | backend/sockets/collaboration.js:27 | Joining a room keeps the adapter's two maps consistent. |
| CollaborationHub.Hub.LeaveRoom | backend/sockets/collaboration.js:44-50 | A falsy room changes nothing. Otherwise the socket leaves, an emptied room disappears, and the remaining members, never the leaver, get `userLeft`. |
| CollaborationHub.Hub.LeavePreservesValid | backend/sockets/collaboration.js:46 | Leaving a room keeps the adapter's two maps consistent. |
| CollaborationHub.Hub.Broadcast | backend/sockets/collaboration.js:54 | `socket.to(room).emit`: one delivery per room member outside the sender's private room. While the sender is in its private room, it never receives its own broadcast. |
| CollaborationHub.Hub.CodeChangeHandler | backend/sockets/collaboration.js:52-60 | The change is relayed to the room except the sender, with `senderId` taken from the authenticated socket. Room membership is not checked. |
| CollaborationHub.Hub.CursorMoveHandler | backend/sockets/collaboration.js:62-69 | The position is relayed to the room except the sender, carrying the socket's own user id and username. |
| CollaborationHub.Hub.ProjectUpdateHandler | backend/sockets/collaboration.js:71-74 | The project is relayed unchanged to the room named by its id, except the sender. |
| CollaborationHub.Hub.MeetingUpdateHandler | backend/sockets/collaboration.js:76-79 | The meeting is relayed unchanged to the room of its project, except the sender. |
| CollaborationHub.Hub.EmitToRoom | backend/routes/projects.js:237-241 | `io.to(room).emit`: one delivery to every member of the room, the sender's sockets included. |
| CollaborationHub.Hub.DisconnectNoticesSkipSender | backend/sockets/collaboration.js:85-87 | None of the disconnect notices reaches the disconnecting socket. |
| CollaborationHub.Hub.NotifyRoomsLeft | backend/sockets/collaboration.js:85-87 | The loop sends `userLeft` to every room the socket was in, in order, each time except the sender. |
| CollaborationHub.Hub.Disconnect | backend/sockets/collaboration.js:81-88 | Every room the socket was in, except its private one, gets `userLeft` from the others. The socket is then in no room and no longer known, and the adapter invariant is kept. |
| CollaborationHub.Hub.DisconnectPreservesValid | backend/sockets/collaboration.js:81 | Removing a socket from every room keeps the adapter's two maps consistent. |
| RegisterPage.ValidPasswordExtends | client/src/components/Auth/Register.jsx:15-20 | Appending characters never invalidates a valid password. |
| RegisterPage.PasswordExamples | client/src/components/Auth/Register.jsx:15-20 | A password with 8 characters, a digit and a special character passes. A missing special character fails, a missing digit fails, and 7 characters fail. |
| RegisterPage.FormError | client/src/components/Auth/Register.jsx:22-41 | The guards run in order: username (whitespace-only counts as missing), email, password rule, confirmation. Each message is chosen exactly when the earlier guards pass and its own fails; no message exactly when all pass. |
| RegisterPage.AcceptedFormPassesSchema | client/src/components/Auth/Register.jsx:26-48 | Whatever the form sends also passes the server's required-field validation once the username is stored. |
| RegisterPage.RegisterForm.constructor | client/src/components/Auth/Register.jsx:8-12 | The form starts with empty fields and no error. |
| RegisterPage.RegisterForm.HandleSubmit | client/src/components/Auth/Register.jsx:22-48 | The error is cleared and then set to the first failing guard's message. A request with the fields as typed is produced exactly when no guard fails. |
| RegisterPage.RegisterForm.HandleAnswer | client/src/components/Auth/Register.jsx:49-54 | On success the token and the user id are stored and the form goes to `/projects`. On failure it shows the server's message, or "Registration failed" when there is none, and stores nothing. |
| RegisterPage.ValidatePassword | client/src/components/Auth/Register.jsx:15-20 | At least 8 characters, a digit and a special character of the class. No special character is a digit, so an accepted password has the two at different places. |
| ProtectedRoute.Decide | client/src/components/ProtectedRoute.jsx:5-29 | Loading always shows the placeholder. A logged-in user at `/login` or `/register` goes to `/projects`. A logged-out user at `/projects` or under `/meeting/` goes to `/login`. A logged-in user whose role is not allowed goes to `/`. Everything else renders the children. Each case holds exactly when its condition does. |
| ProtectedRoute.RedirectSettles | client/src/components/ProtectedRoute.jsx:14-21 | Without a role restriction, the page a redirect leads to renders: the guard never redirects twice. |
| ProtectedRoute.LoggedOutPassThrough | client/src/components/ProtectedRoute.jsx:19-28 | A logged-out user at `/`, at `/login` or at `/meeting` passes through; one at `/meeting/42` goes to `/login`. |

## Left out

- Express, socket.io and mongoose plumbing are not modelled: request and response objects, logging, async awaits, and the server wiring in backend/server.js.
- Each handler is one atomic step. Concurrency between requests and sockets is not modelled, and neither is the delivery order across connections.
- UserModel.User.Save: does not run mongoose's schema validation. Validation is modelled only at registration (`RegisterRefusal`), and saves of users already stored are taken to pass it.
- Crypto, ids and time are parameters, not modelled: `jwt.sign`/`jwt.verify`, `bcrypt.hash`/`compare`, `uuidv4`, fresh ObjectIds, `new Date()` and `Date.now()`.
  Date-string parsing in the meetings route is out, because times arrive as integers.
- Persistence failures are not modelled: database errors, and CastErrors from malformed ids in `findById`, which would answer 500.
- Mongoose strict mode is not modelled: `inviteCode`, `sessionActive` and `admin` are not in the project schema, so mongoose would drop those writes. They are modelled as real fields, the way the handlers use them.
- `populate` of collaborator usernames in list and detail answers is out; a view carries collaborator ids. Its effect on the access check of GET `/:projectId` is modelled by `GetProjectAsWritten`.
- AccountRoutes.Register: the unique index on `username` is not part of `UniqueUsers`, because the route never stores a username; only ids and emails are kept unique.
- AccountRoutes.Login: the email is always a string; a request without one, and the query mongoose builds from it, is not modelled.
- ProjectModel.ListedViews: states membership of the answer, not its order or multiplicity.
- CollaborationHub.Hub.Disconnect: takes `socket.rooms` to still hold the socket's rooms when the `disconnect` handler runs, and then removes the socket from every room in one step.
- CollaborationHub.Hub.AnnounceJoin: takes the sockets of the room at the moment of the join. The `fetchSockets` await, during which others may come or go, is not modelled.
- Text.ToLower: folds ASCII letters only, not the full Unicode case mapping of `toLowerCase`.
- String lengths count Unicode characters, not UTF-16 code units: `slice(0, 8)` differs only for characters outside the Basic Multilingual Plane.
- ProjectRoutes.AddCollaborator: treats `mongoose.Types.ObjectId.isValid` as an abstract predicate, because the accepted forms depend on the bson version.
- ProjectRoutes.RemoveCollaborator: the `io` instance is taken to be always present, as backend/server.js sets it.
- The model files backend/models/Project.js, backend/models/Meeting.js and backend/models/Code.js hold no logic. They shaped the datatypes only; `Code` is unused.
- The React components other than the route guard and the registration form are not part of this model (dashboard, panel, editor, meeting page, login page, app shell, auth context).
  The `start < end` checks of the dashboard and the panel belong to those UI handlers.

## Findings

| source | as written | input that shows it | evidently intended | confidence | as-written member | corrected member |
|---|---|---|---|---|---|---|
| backend/routes/auth.js:19-20 | `new User({ email, password, role })` leaves out the username. The schema requires it, so validation inside `save()` fails and every register that passes the guards ends in 500. | a register request with a new email, a non-empty password and no role | the username sent by the registration form is stored | high (not executed) | AccountRoutes.RegisterAsWritten | AccountRoutes.Register |
| backend/routes/auth.js:45-52 | `authMiddleware` is mounted without being called. Express runs the factory, which returns the inner middleware unused, so GET `/users` and DELETE `/users/:id` never answer. | any request, e.g. one with a valid admin token | `authMiddleware()` authenticates and the handler runs with the requester | high (not executed) | AuthMiddleware.MountedUncalled | AuthMiddleware.MountedCalled |
| backend/routes/meetings.js:8-34 | The meeting routes mount `authMiddleware` the same way, so meeting creation and access never answer. | any request to `/api/meetings/...` | the meeting handlers run with the authenticated requester | high (not executed) | AuthMiddleware.UncalledStallsValidRequest | AuthMiddleware.MountedCalled |
| backend/routes/projects.js:114-123 | The project is loaded with `populate('collaborators', 'username')`, so each collaborator entry is a user document. `includes(req.user.id)` compares the id string with those documents by `==`, and a document converts to its printed form, not its id, so the collaborator branch never holds. | a requester with role 'user', in the collaborators, not the owner, while the session is active (`ActiveCollaboratorShutOut`) | an active collaborator gets the project, as the comment above the check says | medium (not executed; rests on mongoose's array `includes`) | ProjectRoutes.GetProjectAsWritten | ProjectRoutes.GetProject |
