/** The presence and broadcast hub of backend/sockets/collaboration.js, with
    the part of socket.io's in-memory adapter it relies on. `rooms` maps a
    room to its sockets and `sids` maps a socket to its rooms (`socket.rooms`),
    both in join order, as the adapter's Sets iterate; every socket starts in
    the private room named by its own id. `user` is `socket.user` of each
    authenticated connection. Every emit appends one delivery per recipient to
    `outbox`. Each handler runs as one atomic step. */
module CollaborationHub {
  import opened Base
  import opened ProjectModel
  import opened Meetings

  /** A cursor position, relayed as the client sent it. */
  datatype Position = Position(lineNumber: int, column: int)

  datatype Event =
    | UserJoined(id: Id, username: Option<string>)
    | InitialState(collaborators: map<Id, Option<string>>)
    | UserLeft(userId: Id)
    | UserDisconnected(userId: Id)
    | CodeChange(projectId: Id, fileName: string, content: string, senderId: Id)
    | CursorMove(userId: Id, username: Option<string>, position: Position)
    | ProjectUpdate(project: ProjectView)
    | MeetingUpdate(meeting: Meeting)

  /** One event sent to one socket. */
  datatype Delivery = Delivery(recipient: Id, event: Event)

  datatype Handshake = Accepted | Refused(reason: string)

  /** The entries of `ms` that are not in `excluded`, in order. */
  function Except(ms: seq<Id>, excluded: seq<Id>): (r: seq<Id>)
    ensures forall s :: s in r <==> s in ms && s !in excluded
    ensures NoDuplicates(ms) ==> NoDuplicates(r)
  {
    if ms == [] then []
    else
      var rest := Except(ms[1..], excluded);
      assert NoDuplicates(ms) ==> NoDuplicates(ms[1..]);
      if ms[0] in excluded then rest else [ms[0]] + rest
  }

  /** One delivery of `e` to each recipient, in order. */
  function FanOut(recipients: seq<Id>, e: Event): seq<Delivery>
  {
    seq(|recipients|, i requires 0 <= i < |recipients| => Delivery(recipients[i], e))
  }

  /** No `userJoined` delivery of `sent` goes to `sid`. */
  predicate JoinNoticeSkips(sent: seq<Delivery>, sid: Id)
  {
    forall i :: 0 <= i < |sent| && sent[i].event.UserJoined? ==> sent[i].recipient != sid
  }

  /** Every `initialState` delivery of `sent` goes to `sid`. */
  predicate RosterOnlyTo(sent: seq<Delivery>, sid: Id)
  {
    forall i :: 0 <= i < |sent| && sent[i].event.InitialState? ==> sent[i].recipient == sid
  }

  /** The sockets that receive a fan-out. */
  function RecipientsOf(d: seq<Delivery>): set<Id>
  {
    set i | 0 <= i < |d| :: d[i].recipient
  }

  /** A fan-out reaches exactly its recipients, each once, with the same event. */
  lemma FanOutReaches(recipients: seq<Id>, e: Event)
    ensures RecipientsOf(FanOut(recipients, e)) == set s | s in recipients
    ensures forall d :: d in FanOut(recipients, e) ==> d.event == e
  {
    var d := FanOut(recipients, e);
    forall s | s in recipients ensures s in RecipientsOf(d) {
      var i :| 0 <= i < |recipients| && recipients[i] == s;
      assert d[i].recipient == s;
    }
  }

  /** The recipients of two fan-outs in a row are those of either. */
  lemma RecipientsOfAppend(a: seq<Delivery>, b: seq<Delivery>)
    ensures RecipientsOf(a + b) == RecipientsOf(a) + RecipientsOf(b)
  {
    var ab := a + b;
    forall s | s in RecipientsOf(a) + RecipientsOf(b) ensures s in RecipientsOf(ab) {
      if s in RecipientsOf(a) {
        var i :| 0 <= i < |a| && a[i].recipient == s;
        assert ab[i].recipient == s;
      } else {
        var i :| 0 <= i < |b| && b[i].recipient == s;
        assert ab[|a| + i].recipient == s;
      }
    }
  }

  /** `socket.to(room)` leaves out every socket of the room named by the
      sender's id; so whenever the sender is still in that private room, a
      broadcast does not come back to it. */
  lemma {:induction false} ExceptSenderNotReached(members: seq<Id>, privateRoom: seq<Id>, sender: Id, e: Event)
    requires sender in privateRoom
    ensures sender !in RecipientsOf(FanOut(Except(members, privateRoom), e))
  {
    FanOutReaches(Except(members, privateRoom), e);
  }

  /** `initialCollaborators` after the loop has visited `ms`: for each socket
      other than `self`, its user id maps to its username; a later socket of
      the same user overwrites an earlier one. */
  function RosterOf(ms: seq<Id>, self: Id, user: map<Id, Claims>): map<Id, Option<string>>
    requires forall s :: s in ms ==> s in user
  {
    if ms == [] then map[]
    else
      var before := RosterOf(ms[..|ms| - 1], self, user);
      var s := ms[|ms| - 1];
      if s != self then before[user[s].id := user[s].username] else before
  }

  /** `roster` is what `initialState` should carry for a socket `self` in a
      room with the sockets `ms`: the user id of every other socket, each with
      the username of one of that user's other sockets, and nothing else. */
  ghost predicate RosterDescribes(roster: map<Id, Option<string>>, ms: seq<Id>, self: Id, user: map<Id, Claims>)
    requires forall s :: s in ms ==> s in user
  {
    && (forall k :: k in roster <==> exists s :: s in ms && s != self && user[s].id == k)
    && (forall k :: k in roster ==> exists s :: s in ms && s != self && user[s].id == k && roster[k] == user[s].username)
  }

  /** The roster lists the user id of every socket in `ms` except `self`,
      and nothing else; exclusion is by socket id, so another socket of the
      joining user still puts that user in the roster. */
  lemma {:induction false} RosterKeys(ms: seq<Id>, self: Id, user: map<Id, Claims>)
    requires forall s :: s in ms ==> s in user
    ensures forall k :: k in RosterOf(ms, self, user) <==>
                          exists s :: s in ms && s != self && user[s].id == k
  {
    if ms != [] {
      var init := ms[..|ms| - 1];
      RosterKeys(init, self, user);
      assert ms == init + [ms[|ms| - 1]];
      forall k | exists s :: s in ms && s != self && user[s].id == k
        ensures k in RosterOf(ms, self, user)
      {
        var s :| s in ms && s != self && user[s].id == k;
        if s in init {
          assert k in RosterOf(init, self, user);
        }
      }
    }
  }

  /** Each roster entry is the username of a socket of that user. */
  lemma {:induction false} RosterValues(ms: seq<Id>, self: Id, user: map<Id, Claims>)
    requires forall s :: s in ms ==> s in user
    ensures forall k :: k in RosterOf(ms, self, user) ==>
                          exists s :: s in ms && s != self && user[s].id == k
                                      && RosterOf(ms, self, user)[k] == user[s].username
  {
    if ms != [] {
      var init := ms[..|ms| - 1];
      RosterValues(init, self, user);
      assert ms == init + [ms[|ms| - 1]];
      var r := RosterOf(ms, self, user);
      forall k | k in r
        ensures exists s :: s in ms && s != self && user[s].id == k && r[k] == user[s].username
      {
        var last := ms[|ms| - 1];
        if last != self && user[last].id == k {
          assert r[k] == user[last].username;
        } else {
          assert k in RosterOf(init, self, user) && r[k] == RosterOf(init, self, user)[k];
          var s :| s in init && s != self && user[s].id == k && RosterOf(init, self, user)[k] == user[s].username;
          assert s in ms;
        }
      }
    }
  }

  /** The adapter's two maps agree, list nobody twice, keep no empty room,
      and mention only the connected sockets `connected`. */
  ghost predicate Consistent(rooms: map<Id, seq<Id>>, sids: map<Id, seq<Id>>, connected: set<Id>)
  {
    && sids.Keys == connected
    && (forall s :: s in sids ==> NoDuplicates(sids[s]))
    && (forall r :: r in rooms ==> NoDuplicates(rooms[r]) && rooms[r] != [])
    && (forall r, s :: r in rooms && s in rooms[r] ==> s in sids && r in sids[s])
    && (forall s, r :: s in sids && r in sids[s] ==> r in rooms && s in rooms[r])
  }

  class Hub {
    var rooms: map<Id, seq<Id>>
    var sids: map<Id, seq<Id>>
    var user: map<Id, Claims>
    var outbox: seq<Delivery>

    ghost predicate Valid()
      reads this
    {
      Consistent(rooms, sids, user.Keys)
    }

    constructor ()
      ensures Valid() && rooms == map[] && sids == map[] && user == map[] && outbox == []
    {
      rooms, sids, user, outbox := map[], map[], map[], [];
    }

    /** The sockets in a room, in join order. */
    function Members(room: Id): seq<Id>
      reads this`rooms
    {
      if room in rooms then rooms[room] else []
    }

    /** The socket is still in the private room named by its id (it is put
        there on connection and leaves it only by asking to). */
    predicate InPrivateRoom(sid: Id)
      reads this`rooms
    {
      sid in Members(sid)
    }

    /** The recipients of `socket.to(room).emit(...)` from socket `sender`. */
    function BroadcastTargets(room: Id, sender: Id): seq<Id>
      reads this`rooms
    {
      Except(Members(room), Members(sender))
    }

    /** The rooms after socket `sid` leaves `room` (an emptied room is dropped). */
    function RoomsWithout(room: Id, sid: Id): map<Id, seq<Id>>
      reads this`rooms
    {
      if room !in rooms then rooms
      else if RemoveAll(rooms[room], sid) == [] then rooms - {room}
      else rooms[room := RemoveAll(rooms[room], sid)]
    }

    /** The handshake middleware: a connection without a token, or whose token
        fails verification, is refused and never reaches a handler. */
    method Connect(sid: Id, token: Option<string>, verify: string -> Option<Claims>)
      returns (h: Handshake)
      requires Valid() && sid !in user
      modifies this
      ensures Valid()
      ensures h.Refused? <==> token.None? || !Truthy(token.value) || verify(token.value).None?
      ensures h.Refused? ==> h.reason == "Authentication error" && sid !in user
                             && rooms == old(rooms) && sids == old(sids) && user == old(user)
      ensures h.Accepted? ==> user == old(user)[sid := verify(token.value).value]
                              && sids == old(sids)[sid := [sid]]
                              && rooms == old(rooms)[sid := old(Members(sid)) + [sid]]
      ensures outbox == old(outbox)
    {
      if token.None? || !Truthy(token.value) {
        return Refused("Authentication error");
      }
      var claims := verify(token.value);
      if claims.None? {
        return Refused("Authentication error");
      }
      assert sid !in sids;
      assert forall r :: r in rooms ==> sid !in rooms[r];
      rooms := rooms[sid := Members(sid) + [sid]];
      sids := sids[sid := [sid]];
      user := user[sid := claims.value];
      h := Accepted;
    }

    /** The loop that builds `initialCollaborators` from the sockets of the room. */
    method BuildRoster(members: seq<Id>, self: Id) returns (roster: map<Id, Option<string>>)
      requires forall s :: s in members ==> s in user
      ensures RosterDescribes(roster, members, self, user)
      ensures roster == RosterOf(members, self, user)
    {
      roster := map[];
      for i := 0 to |members|
        invariant roster == RosterOf(members[..i], self, user)
      {
        assert members[..i + 1][..i] == members[..i];
        var s := members[i];
        if s != self {
          roster := roster[user[s].id := user[s].username];
        }
      }
      assert members[..|members|] == members;
      RosterKeys(members, self, user);
      RosterValues(members, self, user);
    }

    /** What `joinRoom` emits once the socket is in the room: `userJoined`
        to the room except the joiner, then the roster to the joiner alone. */
    method AnnounceJoin(sid: Id, projectId: Id) returns (roster: map<Id, Option<string>>)
      requires sid in user && forall s :: s in Members(projectId) ==> s in user
      modifies this`outbox
      ensures roster == RosterOf(Members(projectId), sid, user)
      ensures RosterDescribes(roster, Members(projectId), sid, user)
      ensures outbox == old(outbox)
                        + FanOut(BroadcastTargets(projectId, sid), UserJoined(user[sid].id, user[sid].username))
                        + [Delivery(sid, InitialState(roster))]
      ensures InPrivateRoom(sid) ==> JoinNoticeSkips(outbox[|old(outbox)|..], sid)
      ensures RosterOnlyTo(outbox[|old(outbox)|..], sid)
    {
      var joined := UserJoined(user[sid].id, user[sid].username);
      Broadcast(projectId, sid, joined);
      ghost var sent := outbox[|old(outbox)|..];
      roster := BuildRoster(Members(projectId), sid);
      outbox := outbox + [Delivery(sid, InitialState(roster))];
      assert Members(projectId) == old(Members(projectId));
      forall i | |old(outbox)| <= i < |outbox| - 1
        ensures outbox[i] == sent[i - |old(outbox)|] && outbox[i].recipient in RecipientsOf(sent)
      {
      }
    }

    /** `joinRoom`: a falsy room changes nothing. Otherwise the socket joins,
        every other socket of the room gets `userJoined`, and the joiner alone
        gets the roster of the other sockets then in the room. */
    method JoinRoom(sid: Id, projectId: Id)
      requires Valid() && sid in user
      modifies this
      ensures Valid()
      ensures !Truthy(projectId) ==>
                rooms == old(rooms) && sids == old(sids) && user == old(user) && outbox == old(outbox)
      ensures Truthy(projectId) ==>
                && rooms == old(rooms)[projectId := AddIfAbsent(old(Members(projectId)), sid)]
                && sids == old(sids)[sid := AddIfAbsent(old(sids[sid]), projectId)]
                && user == old(user)
                && sid in Members(projectId)
                && outbox == old(outbox)
                             + FanOut(BroadcastTargets(projectId, sid),
                                      UserJoined(user[sid].id, user[sid].username))
                             + [Delivery(sid, InitialState(RosterOf(Members(projectId), sid, user)))]
      // the roster holds the user id of every other socket in the room, each
      // with a username of one of that user's sockets there, and nothing else
      ensures Truthy(projectId) ==>
                RosterDescribes(RosterOf(Members(projectId), sid, user), Members(projectId), sid, user)
      // the joiner is not told of its own arrival, and nobody else gets the roster
      ensures old(InPrivateRoom(sid)) ==> JoinNoticeSkips(outbox[|old(outbox)|..], sid)
      ensures RosterOnlyTo(outbox[|old(outbox)|..], sid)
    {
      if !Truthy(projectId) {
        return;
      }
      JoinPreservesValid(sid, projectId);
      rooms := rooms[projectId := AddIfAbsent(Members(projectId), sid)];
      sids := sids[sid := AddIfAbsent(sids[sid], projectId)];
      ghost var private := InPrivateRoom(sid);
      assert old(InPrivateRoom(sid)) ==> private;
      ghost var before := outbox;
      ghost var rooms1, sids1 := rooms, sids;
      assert rooms1 == old(rooms)[projectId := AddIfAbsent(old(Members(projectId)), sid)];
      assert sids1 == old(sids)[sid := AddIfAbsent(old(sids[sid]), projectId)];
      var roster := AnnounceJoin(sid, projectId);
      assert rooms == rooms1 && sids == sids1;
      ghost var sent := outbox[|before|..];
      assert private ==> JoinNoticeSkips(sent, sid);
      assert RosterOnlyTo(sent, sid);
    }

    lemma JoinPreservesValid(sid: Id, room: Id)
      requires Valid() && sid in user
      ensures Consistent(rooms[room := AddIfAbsent(Members(room), sid)], sids[sid := AddIfAbsent(sids[sid], room)], user.Keys)
    {
      AddIfAbsentProperties(Members(room), sid);
      AddIfAbsentProperties(sids[sid], room);
      if room in rooms {
        assert NoDuplicates(rooms[room]);
      }
    }

    /** `leaveRoom`: a falsy room changes nothing. Otherwise the socket leaves
        and the sockets left in the room get `userLeft` with its user id. */
    method LeaveRoom(sid: Id, projectId: Id)
      requires Valid() && sid in user
      modifies this
      ensures Valid()
      ensures !Truthy(projectId) ==>
                rooms == old(rooms) && sids == old(sids) && user == old(user) && outbox == old(outbox)
      ensures Truthy(projectId) ==>
                && rooms == old(RoomsWithout(projectId, sid))
                && sids == old(sids)[sid := RemoveAll(old(sids[sid]), projectId)]
                && user == old(user)
                && sid !in Members(projectId)
                && outbox == old(outbox) + FanOut(BroadcastTargets(projectId, sid), UserLeft(user[sid].id))
      // only the sockets remaining in the room are told
      ensures sid !in RecipientsOf(outbox[|old(outbox)|..])
    {
      if !Truthy(projectId) {
        return;
      }
      LeavePreservesValid(sid, projectId);
      rooms := RoomsWithout(projectId, sid);
      sids := sids[sid := RemoveAll(sids[sid], projectId)];
      var left := UserLeft(user[sid].id);
      Broadcast(projectId, sid, left);
      FanOutReaches(BroadcastTargets(projectId, sid), left);
    }

    lemma LeavePreservesValid(sid: Id, room: Id)
      requires Valid() && sid in user
      ensures Consistent(RoomsWithout(room, sid), sids[sid := RemoveAll(sids[sid], room)], user.Keys)
    {
      RemoveAllNoDuplicates(sids[sid], room);
      if room in rooms {
        RemoveAllNoDuplicates(rooms[room], sid);
      }
    }

    /** `socket.to(room).emit(e)` from socket `sid`: one delivery to each
        socket of the room outside the sender's private room. */
    method Broadcast(room: Id, sid: Id, e: Event)
      modifies this`outbox
      ensures outbox == old(outbox) + FanOut(BroadcastTargets(room, sid), e)
      ensures InPrivateRoom(sid) ==> sid !in RecipientsOf(outbox[|old(outbox)|..])
    {
      var sent := FanOut(BroadcastTargets(room, sid), e);
      if InPrivateRoom(sid) {
        ExceptSenderNotReached(Members(room), Members(sid), sid, e);
      }
      outbox := outbox + sent;
      assert outbox[|old(outbox)|..] == sent;
    }

    /** `codeChange`: forwarded to the room except the sender, with the
        sender's id taken from its authenticated socket; membership of the
        sender is not checked. */
    method CodeChangeHandler(sid: Id, projectId: Id, fileName: string, content: string)
      requires Valid() && sid in user
      modifies this`outbox
      ensures outbox == old(outbox) + FanOut(BroadcastTargets(projectId, sid),
                                             CodeChange(projectId, fileName, content, user[sid].id))
      ensures InPrivateRoom(sid) ==> sid !in RecipientsOf(outbox[|old(outbox)|..])
    {
      Broadcast(projectId, sid, CodeChange(projectId, fileName, content, user[sid].id));
    }

    /** `cursorMove`: the same fan-out, with the user id and username of the
        sending socket. */
    method CursorMoveHandler(sid: Id, projectId: Id, position: Position)
      requires Valid() && sid in user
      modifies this`outbox
      ensures outbox == old(outbox) + FanOut(BroadcastTargets(projectId, sid),
                                             CursorMove(user[sid].id, user[sid].username, position))
      ensures InPrivateRoom(sid) ==> sid !in RecipientsOf(outbox[|old(outbox)|..])
    {
      Broadcast(projectId, sid, CursorMove(user[sid].id, user[sid].username, position));
    }

    /** `projectUpdate`: the project is relayed unchanged to the room named by
        its `_id`, except the sender. */
    method ProjectUpdateHandler(sid: Id, project: ProjectView)
      requires Valid() && sid in user
      modifies this`outbox
      ensures outbox == old(outbox) + FanOut(BroadcastTargets(project.id, sid), ProjectUpdate(project))
      ensures InPrivateRoom(sid) ==> sid !in RecipientsOf(outbox[|old(outbox)|..])
    {
      Broadcast(project.id, sid, ProjectUpdate(project));
    }

    /** `meetingUpdate`: the meeting is relayed unchanged to the room named
        by its `projectId`, except the sender. */
    method MeetingUpdateHandler(sid: Id, meeting: Meeting)
      requires Valid() && sid in user
      modifies this`outbox
      ensures outbox == old(outbox) + FanOut(BroadcastTargets(meeting.projectId, sid), MeetingUpdate(meeting))
      ensures InPrivateRoom(sid) ==> sid !in RecipientsOf(outbox[|old(outbox)|..])
    {
      Broadcast(meeting.projectId, sid, MeetingUpdate(meeting));
    }

    /** `io.to(room).emit(...)` from a REST route: every socket of the room. */
    method EmitToRoom(room: Id, e: Event)
      modifies this`outbox
      ensures outbox == old(outbox) + FanOut(Members(room), e)
    {
      outbox := outbox + FanOut(Members(room), e);
    }

    /** The `userLeft` notice for one room the disconnecting socket was in. */
    function LeftNotice(room: Id, sid: Id, userId: Id): seq<Delivery>
      reads this`rooms
    {
      FanOut(BroadcastTargets(room, sid), UserLeft(userId))
    }

    /** The `userLeft` notices the disconnect loop sends for the rooms `rs`. */
    function DisconnectNotices(rs: seq<Id>, sid: Id, userId: Id): seq<Delivery>
      reads this`rooms
    {
      if rs == [] then []
      else DisconnectNotices(rs[..|rs| - 1], sid, userId) + LeftNotice(rs[|rs| - 1], sid, userId)
    }

    /** The rooms once socket `sid` is gone from all of them (emptied rooms
        are dropped). */
    function RoomsWithoutSocket(sid: Id): map<Id, seq<Id>>
      reads this`rooms
    {
      map r | r in rooms && RemoveAll(rooms[r], sid) != [] :: RemoveAll(rooms[r], sid)
    }

    /** No `userLeft` notice of a disconnect goes back to the socket while it
        is in its private room. */
    lemma {:induction false} DisconnectNoticesSkipSender(rs: seq<Id>, sid: Id, userId: Id)
      requires InPrivateRoom(sid)
      ensures sid !in RecipientsOf(DisconnectNotices(rs, sid, userId))
    {
      if rs != [] {
        DisconnectNoticesSkipSender(rs[..|rs| - 1], sid, userId);
        ExceptSenderNotReached(Members(rs[|rs| - 1]), Members(sid), sid, UserLeft(userId));
        RecipientsOfAppend(DisconnectNotices(rs[..|rs| - 1], sid, userId), LeftNotice(rs[|rs| - 1], sid, userId));
      }
    }

    /** The loop of the `disconnect` handler over the socket's rooms. */
    method NotifyRoomsLeft(joined: seq<Id>, sid: Id, userId: Id)
      modifies this`outbox
      ensures outbox == old(outbox) + DisconnectNotices(joined, sid, userId)
    {
      for i := 0 to |joined|
        invariant outbox == old(outbox) + DisconnectNotices(joined[..i], sid, userId)
      {
        assert joined[..i + 1][..i] == joined[..i];
        outbox := outbox + LeftNotice(joined[i], sid, userId);
      }
      assert joined[..|joined|] == joined;
    }

    /** `disconnect`: each room of the socket but its private one gets
        `userLeft`; then the runtime takes the socket out of every room. */
    method Disconnect(sid: Id)
      requires Valid() && sid in user
      modifies this
      ensures Valid()
      ensures outbox == old(outbox) + old(DisconnectNotices(RemoveAll(sids[sid], sid), sid, user[sid].id))
      ensures user == old(user) - {sid} && sids == old(sids) - {sid}
      ensures rooms == old(RoomsWithoutSocket(sid))
      ensures forall r :: sid !in Members(r)
      ensures old(InPrivateRoom(sid)) ==> sid !in RecipientsOf(outbox[|old(outbox)|..])
    {
      if InPrivateRoom(sid) {
        DisconnectNoticesSkipSender(RemoveAll(sids[sid], sid), sid, user[sid].id);
      }
      NotifyRoomsLeft(RemoveAll(sids[sid], sid), sid, user[sid].id);
      assert outbox[|old(outbox)|..] == old(DisconnectNotices(RemoveAll(sids[sid], sid), sid, user[sid].id));
      DisconnectPreservesValid(sid);
      rooms := RoomsWithoutSocket(sid);
      sids := sids - {sid};
      user := user - {sid};
    }

    lemma DisconnectPreservesValid(sid: Id)
      requires Valid() && sid in user
      ensures Consistent(RoomsWithoutSocket(sid), sids - {sid}, user.Keys - {sid})
    {
      forall r | r in rooms {
        RemoveAllNoDuplicates(rooms[r], sid);
      }
    }
  }
}
