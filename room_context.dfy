/**
 * The room-based session of `RoomContext.tsx`: the signed-in user's rooms, the current room,
 * its members and its messages, and how backend replies and realtime events update them.
 *
 * Every backend call is replaced by its reply, passed in as a parameter; the rows the code
 * would write are returned, so what is sent can be stated. Nothing is deduplicated, sorted
 * or created optimistically: the code does none of that.
 */
module RoomContext {
  import opened Wrappers
  import opened Seqs
  import Text

  type UserId = string

  datatype Room = Room(id: string, name: string, createdBy: UserId, code: string, isPrivate: bool,
                       createdAt: string)

  datatype Profile = Profile(username: string, avatar: string, status: string, isOnline: bool,
                             lastSeen: Option<string>)

  datatype RoomMember = RoomMember(id: string, roomId: string, userId: UserId, joinedAt: string,
                                   profile: Profile)

  datatype SenderProfile = SenderProfile(username: string, avatar: string)

  /** A message as the list keeps it: the row plus its sender's profile. */
  datatype Message = Message(id: string, roomId: string, senderId: UserId, content: string,
                             status: string, createdAt: string, profile: SenderProfile)

  /** The profile shown when the sender's profile cannot be fetched. */
  const UnknownSender := SenderProfile("Unknown", "")

  datatype EventType = Insert | Update | Delete

  /** A `room_members` row in a realtime payload; a field is None when absent or null. */
  datatype MemberRow = MemberRow(userId: Option<UserId>, roomId: Option<string>)

  datatype MembershipEvent = MembershipEvent(eventType: EventType, newRow: Option<MemberRow>,
                                             oldRow: Option<MemberRow>)

  /** A `messages` row in a realtime INSERT payload; `roomId` is None when absent. */
  datatype MessageRow = MessageRow(id: string, roomId: Option<string>, senderId: UserId,
                                   content: string, status: string, createdAt: string)

  /** Rows the session asks the backend to insert. */
  datatype RoomInsert = RoomInsert(name: string, createdBy: UserId, code: string, isPrivate: bool)
  datatype MemberInsert = MemberInsert(roomId: string, userId: UserId)
  datatype MessageInsert = MessageInsert(roomId: string, senderId: UserId, content: string)

  /** The part of the session that membership events change. */
  datatype Registry = Registry(rooms: seq<Room>, currentRoom: Option<Room>)

  /** `rooms.find(r => r.id === roomId)`: the first room with that id, or null. */
  function FindRoom(rooms: seq<Room>, roomId: string): (r: Option<Room>)
    ensures r.None? <==> forall i :: 0 <= i < |rooms| ==> rooms[i].id != roomId
    ensures r.Some? ==> exists k :: 0 <= k < |rooms| && rooms[k] == r.value && r.value.id == roomId
                                    && forall j :: 0 <= j < k ==> rooms[j].id != roomId
  {
    if rooms == [] then None
    else if rooms[0].id == roomId then Some(rooms[0])
    else
      var r := FindRoom(rooms[1..], roomId);
      assert r.Some? ==> exists k :: 0 <= k < |rooms[1..]| && rooms[1..][k] == r.value
                           && forall j :: 0 <= j < k ==> rooms[1..][j].id != roomId;
      assert r.Some? ==> exists k :: 0 <= k < |rooms| && rooms[k] == r.value
                           && forall j :: 0 <= j < k ==> rooms[j].id != roomId
      by {
        if r.Some? {
          var k :| 0 <= k < |rooms[1..]| && rooms[1..][k] == r.value
                   && forall j :: 0 <= j < k ==> rooms[1..][j].id != roomId;
          assert rooms[k + 1] == r.value;
          assert forall j :: 0 < j < k + 1 ==> rooms[j] == rooms[1..][j - 1];
        }
      }
      r
  }

  /** `rooms.filter(r => r.id !== roomId)`: every room with that id is dropped, the rest keep their order. */
  function WithoutRoom(rooms: seq<Room>, roomId: string): (r: seq<Room>)
    ensures IsSubsequence(r, rooms)
    ensures forall i :: 0 <= i < |r| ==> r[i].id != roomId
    ensures forall i :: 0 <= i < |rooms| && rooms[i].id != roomId ==> rooms[i] in r
    ensures forall i :: 0 <= i < |rooms| && rooms[i].id != roomId ==> multiset(r)[rooms[i]] == multiset(rooms)[rooms[i]]
  {
    FilterIsSubsequence(rooms, (x: Room) => x.id != roomId);
    FilterKeepsCount(rooms, (x: Room) => x.id != roomId);
    Filter(rooms, (x: Room) => x.id != roomId)
  }

  /** The guard on every membership event: a signed-in user and `payload.new.user_id` equal to that user's id. */
  predicate ConcernsUser(user: Option<UserId>, ev: MembershipEvent) {
    user.Some? && ev.newRow.Some? && ev.newRow.value.userId == Some(user.value)
  }

  /** The room an INSERT asks to fetch: its `room_id`, when present and not the empty string. */
  function InsertedRoomId(ev: MembershipEvent): (r: Option<string>)
    ensures r.Some? <==> ev.newRow.Some? && ev.newRow.value.roomId.Some? && ev.newRow.value.roomId.value != []
    ensures r.Some? ==> r == ev.newRow.value.roomId
  {
    if ev.newRow.Some? && ev.newRow.value.roomId.Some? && ev.newRow.value.roomId.value != []
    then ev.newRow.value.roomId else None
  }

  /** The room a DELETE removes: the old row's `room_id`, when there is one. */
  function DeletedRoomId(ev: MembershipEvent): Option<string> {
    if ev.oldRow.Some? then ev.oldRow.value.roomId else None
  }

  /**
   * What the membership-event handler does at once. An INSERT changes nothing yet: it only asks
   * for the room, which is appended when `fetchRoom` resolves (`RoomSession.OnRoomFetched`).
   * A DELETE drops every copy of the room and deselects the current room when it is the one removed.
   */
  function ApplyMembershipEvent(reg: Registry, user: Option<UserId>, ev: MembershipEvent): (r: Registry)
    ensures !ConcernsUser(user, ev) || ev.eventType != Delete || DeletedRoomId(ev).None? ==> r == reg
    ensures ev.eventType == Delete && ConcernsUser(user, ev) && DeletedRoomId(ev).Some? ==>
              && (forall i :: 0 <= i < |r.rooms| ==> r.rooms[i].id != DeletedRoomId(ev).value)
              && IsSubsequence(r.rooms, reg.rooms)
              && (forall i :: 0 <= i < |reg.rooms| && reg.rooms[i].id != DeletedRoomId(ev).value ==> reg.rooms[i] in r.rooms)
              && (forall i :: 0 <= i < |reg.rooms| && reg.rooms[i].id != DeletedRoomId(ev).value ==>
                    multiset(r.rooms)[reg.rooms[i]] == multiset(reg.rooms)[reg.rooms[i]])
              && (r.currentRoom.None? <==> reg.currentRoom.None? || reg.currentRoom.value.id == DeletedRoomId(ev).value)
              && (r.currentRoom.Some? ==> r.currentRoom == reg.currentRoom)
  {
    if !ConcernsUser(user, ev) || ev.eventType != Delete || DeletedRoomId(ev).None? then reg
    else
      var gone := DeletedRoomId(ev).value;
      Registry(WithoutRoom(reg.rooms, gone),
               if reg.currentRoom.Some? && reg.currentRoom.value.id == gone then None else reg.currentRoom)
  }

  /** After a DELETE for a room, selecting that room finds nothing. */
  lemma DeletedRoomNotSelectable(rooms: seq<Room>, roomId: string)
    ensures FindRoom(WithoutRoom(rooms, roomId), roomId) == None
  {
  }

  /** When the fetched room of an INSERT was not yet listed, selecting it finds the appended room. */
  lemma InsertedRoomSelectable(rooms: seq<Room>, room: Room)
    requires forall i :: 0 <= i < |rooms| ==> rooms[i].id != room.id
    ensures FindRoom(rooms + [room], room.id) == Some(room)
  {
    var all := rooms + [room];
    assert all[|rooms|] == room;
    var r := FindRoom(all, room.id);
    var k :| 0 <= k < |all| && all[k] == r.value && r.value.id == room.id
             && forall j :: 0 <= j < k ==> all[j].id != room.id;
    assert k == |rooms|;
  }

  /**
   * A fetched room that is already listed is appended as a second copy, and selecting the id
   * still finds the earlier copy.
   */
  lemma InsertDoesNotDeduplicate(rooms: seq<Room>, room: Room)
    requires exists i :: 0 <= i < |rooms| && rooms[i].id == room.id
    ensures multiset(rooms + [room])[room] == multiset(rooms)[room] + 1
    ensures FindRoom(rooms + [room], room.id) == FindRoom(rooms, room.id)
  {
    var i :| 0 <= i < |rooms| && rooms[i].id == room.id;
    FindRoomPrefix(rooms, [room], room.id, i);
  }

  lemma {:induction false} FindRoomPrefix(rooms: seq<Room>, more: seq<Room>, roomId: string, i: nat)
    requires i < |rooms| && rooms[i].id == roomId
    ensures FindRoom(rooms + more, roomId) == FindRoom(rooms, roomId)
  {
    if rooms[0].id != roomId {
      assert (rooms + more)[1..] == rooms[1..] + more;
      FindRoomPrefix(rooms[1..], more, roomId, i - 1);
    }
  }

  /** A message INSERT is kept only when a room is current and the row names that room. */
  predicate AcceptsMessage(currentRoom: Option<Room>, row: Option<MessageRow>) {
    row.Some? && currentRoom.Some? && row.value.roomId == Some(currentRoom.value.id)
  }

  /** The message list entry built from an accepted row and the sender profile fetch. */
  function IncomingMessage(row: MessageRow, profile: Option<SenderProfile>): (m: Message)
    requires row.roomId.Some?
    ensures m.id == row.id && m.roomId == row.roomId.value && m.senderId == row.senderId
    ensures m.content == row.content && m.status == row.status && m.createdAt == row.createdAt
    ensures m.profile == if profile.Some? then profile.value else UnknownSender
  {
    Message(row.id, row.roomId.value, row.senderId, row.content, row.status, row.createdAt,
            if profile.Some? then profile.value else UnknownSender)
  }

  /** The five outcomes of `joinRoomWithCode`. */
  datatype JoinStep =
    | NotSignedIn
    | InvalidCode
    | AlreadyMember(room: Room)
    | Joined(room: Room)
    | JoinFailed

  /**
   * `joinRoomWithCode`'s decisions, given the signed-in user, the room lookup by code, whether
   * the membership lookup found a row, and the membership insert's reply (used only when the
   * user was not a member).
   */
  function JoinOutcome(user: Option<UserId>, lookup: Result<Room>, alreadyMember: bool,
                       insert: Outcome): (s: JoinStep)
    ensures (s.AlreadyMember? || s.Joined?) <==>
              user.Some? && lookup.Success? && (alreadyMember || insert.Pass?)
    ensures (s.AlreadyMember? || s.Joined?) ==> s.room == lookup.value
    ensures s.AlreadyMember? <==> user.Some? && lookup.Success? && alreadyMember
  {
    if user.None? then NotSignedIn
    else if lookup.Failure? then InvalidCode
    else if alreadyMember then AlreadyMember(lookup.value)
    else if insert.Fail? then JoinFailed
    else Joined(lookup.value)
  }

  function JoinSucceeded(s: JoinStep): bool {
    s.AlreadyMember? || s.Joined?
  }

  class RoomSession {
    var user: Option<UserId>
    var rooms: seq<Room>
    var currentRoom: Option<Room>
    var roomMembers: seq<RoomMember>
    var messages: seq<Message>
    var loadingMessages: bool
    var loadingRooms: bool

    /** The provider's initial state. */
    constructor ()
      ensures user == None && rooms == [] && currentRoom == None
      ensures roomMembers == [] && messages == []
      ensures !loadingMessages && loadingRooms
    {
      user := None;
      rooms := [];
      currentRoom := None;
      roomMembers := [];
      messages := [];
      loadingMessages := false;
      loadingRooms := true;
    }

    /**
     * The signed-in user changes and the effect keyed on it runs: without a user every list
     * is emptied and no room is current; with one the room fetch starts.
     */
    method OnUserChanged(u: Option<UserId>)
      modifies this
      ensures user == u
      ensures u.None? ==> rooms == [] && currentRoom == None && roomMembers == [] && messages == []
      ensures u.None? ==> loadingRooms == old(loadingRooms)
      ensures u.Some? ==> loadingRooms && rooms == old(rooms) && currentRoom == old(currentRoom)
      ensures u.Some? ==> roomMembers == old(roomMembers) && messages == old(messages)
      ensures loadingMessages == old(loadingMessages)
    {
      user := u;
      if u.None? {
        rooms := [];
        currentRoom := None;
        roomMembers := [];
        messages := [];
      } else {
        loadingRooms := true;
      }
    }

    /** The room fetch resolves: on success the list is replaced, on error it is kept. */
    method OnRoomsFetched(reply: Result<seq<Room>>)
      modifies this
      ensures !loadingRooms
      ensures rooms == if reply.Success? then reply.value else old(rooms)
      ensures user == old(user) && currentRoom == old(currentRoom)
      ensures roomMembers == old(roomMembers) && messages == old(messages)
      ensures loadingMessages == old(loadingMessages)
    {
      if reply.Success? {
        rooms := reply.value;
      }
      loadingRooms := false;
    }

    /**
     * `setCurrentRoom` followed by the effect keyed on `currentRoom`, which runs when the
     * value changes: no room empties the members and messages, a room starts the message fetch.
     */
    method SetCurrentRoom(room: Option<Room>)
      modifies this
      ensures currentRoom == room
      ensures room != old(currentRoom) && room.None? ==>
                roomMembers == [] && messages == [] && loadingMessages == old(loadingMessages)
      ensures room != old(currentRoom) && room.Some? ==>
                loadingMessages && roomMembers == old(roomMembers) && messages == old(messages)
      ensures room == old(currentRoom) ==>
                roomMembers == old(roomMembers) && messages == old(messages) && loadingMessages == old(loadingMessages)
      ensures user == old(user) && rooms == old(rooms) && loadingRooms == old(loadingRooms)
    {
      if room != currentRoom {
        currentRoom := room;
        if room.None? {
          roomMembers := [];
          messages := [];
        } else {
          loadingMessages := true;
        }
      }
    }

    /** The member fetch for the current room resolves; an error keeps the list. */
    method OnMembersFetched(reply: Result<seq<RoomMember>>)
      modifies this
      ensures roomMembers == if reply.Success? then reply.value else old(roomMembers)
      ensures user == old(user) && rooms == old(rooms) && currentRoom == old(currentRoom)
      ensures messages == old(messages)
      ensures loadingMessages == old(loadingMessages) && loadingRooms == old(loadingRooms)
    {
      if reply.Success? {
        roomMembers := reply.value;
      }
    }

    /** The message fetch resolves; an error keeps the list. Loading ends either way. */
    method OnMessagesFetched(reply: Result<seq<Message>>)
      modifies this
      ensures !loadingMessages
      ensures messages == if reply.Success? then reply.value else old(messages)
      ensures user == old(user) && rooms == old(rooms) && currentRoom == old(currentRoom)
      ensures roomMembers == old(roomMembers) && loadingRooms == old(loadingRooms)
    {
      if reply.Success? {
        messages := reply.value;
      }
      loadingMessages := false;
    }

    /**
     * A realtime `room_members` event. Returns the room id the handler asks `fetchRoom` for;
     * the fetched room arrives later, through `OnRoomFetched`.
     */
    method OnMembershipEvent(ev: MembershipEvent) returns (fetch: Option<string>)
      modifies this
      ensures fetch == if ConcernsUser(old(user), ev) && ev.eventType == Insert then InsertedRoomId(ev) else None
      ensures Registry(rooms, currentRoom) == ApplyMembershipEvent(Registry(old(rooms), old(currentRoom)), old(user), ev)
      ensures currentRoom != old(currentRoom) ==> roomMembers == [] && messages == []
      ensures currentRoom == old(currentRoom) ==> roomMembers == old(roomMembers) && messages == old(messages)
      ensures user == old(user) && loadingRooms == old(loadingRooms) && loadingMessages == old(loadingMessages)
    {
      fetch := None;
      if !ConcernsUser(user, ev) {
        return;
      }
      if ev.eventType == Insert {
        fetch := InsertedRoomId(ev);
      } else if ev.eventType == Delete && DeletedRoomId(ev).Some? {
        var gone := DeletedRoomId(ev).value;
        rooms := WithoutRoom(rooms, gone);
        if currentRoom.Some? && currentRoom.value.id == gone {
          SetCurrentRoom(None);
        }
      }
    }

    /**
     * `fetchRoom(roomId).then(...)` resolves: a room that was found is appended to whatever the
     * list is now, with no presence check and no check that the user is still signed in.
     */
    method OnRoomFetched(fetched: Option<Room>)
      modifies this
      ensures rooms == if fetched.Some? then old(rooms) + [fetched.value] else old(rooms)
      ensures user == old(user) && currentRoom == old(currentRoom) && loadingRooms == old(loadingRooms)
      ensures roomMembers == old(roomMembers) && messages == old(messages) && loadingMessages == old(loadingMessages)
    {
      if fetched.Some? {
        rooms := rooms + [fetched.value];
      }
    }

    /** `selectRoom`: null or the empty string deselects; an id selects the first room with that id, or none. */
    method SelectRoom(roomId: Option<string>)
      modifies this
      ensures roomId.None? || roomId.value == [] ==> currentRoom == None
      ensures roomId.Some? && roomId.value != [] ==> currentRoom == FindRoom(old(rooms), roomId.value)
      ensures currentRoom.Some? ==> currentRoom.value in rooms
      ensures currentRoom != old(currentRoom) && currentRoom.None? ==>
                roomMembers == [] && messages == [] && loadingMessages == old(loadingMessages)
      ensures currentRoom != old(currentRoom) && currentRoom.Some? ==>
                loadingMessages && roomMembers == old(roomMembers) && messages == old(messages)
      ensures currentRoom == old(currentRoom) ==>
                roomMembers == old(roomMembers) && messages == old(messages) && loadingMessages == old(loadingMessages)
      ensures user == old(user) && rooms == old(rooms) && loadingRooms == old(loadingRooms)
    {
      if roomId.None? || roomId.value == [] {
        SetCurrentRoom(None);
        return;
      }
      SetCurrentRoom(FindRoom(rooms, roomId.value));
    }

    /**
     * A realtime `messages` INSERT arrives: the handler goes on (to fetch the sender's profile)
     * only when a room is current and the row names it. Returns the row it goes on with.
     */
    method OnMessageEvent(row: Option<MessageRow>) returns (pending: Option<MessageRow>)
      ensures pending.Some? <==> AcceptsMessage(currentRoom, row)
      ensures pending.Some? ==> pending == row && pending.value.roomId.Some?
    {
      pending := if AcceptsMessage(currentRoom, row) then row else None;
    }

    /**
     * The sender profile fetch resolves: the message is appended to the end of the list as it is
     * now, without looking again at which room is current.
     */
    method OnSenderProfile(row: MessageRow, profile: Option<SenderProfile>)
      requires row.roomId.Some?
      modifies this
      ensures messages == old(messages) + [IncomingMessage(row, profile)]
      ensures user == old(user) && rooms == old(rooms) && currentRoom == old(currentRoom)
      ensures roomMembers == old(roomMembers)
      ensures loadingMessages == old(loadingMessages) && loadingRooms == old(loadingRooms)
    {
      messages := messages + [IncomingMessage(row, profile)];
    }

    /**
     * `sendMessage`: the row it inserts, or None when nobody is signed in, no room is current or
     * the content is blank. The content is trimmed; the local message list is not touched.
     */
    method SendMessage(content: string) returns (insert: Option<MessageInsert>)
      ensures insert.None? <==> user.None? || currentRoom.None? || Text.IsBlank(content)
      ensures insert.Some? ==>
                && insert.value.roomId == currentRoom.value.id
                && insert.value.senderId == user.value
                && insert.value.content == Text.Trim(content)
                && insert.value.content != []
    {
      if user.None? || currentRoom.None? || Text.IsBlank(content) {
        return None;
      }
      insert := Some(MessageInsert(currentRoom.value.id, user.value, Text.Trim(content)));
    }

    /**
     * `createRoom` with the generated code and the insert's reply: the room row it inserts
     * (None without a user), the creator's membership row it inserts next, and the room it
     * returns. It neither lists nor selects the new room.
     */
    method CreateRoom(name: string, isPrivate: bool, code: string, reply: Result<Room>)
      returns (roomInsert: Option<RoomInsert>, memberInsert: Option<MemberInsert>, created: Option<Room>)
      ensures roomInsert.None? <==> user.None?
      ensures roomInsert.Some? ==> roomInsert.value == RoomInsert(name, user.value, code, isPrivate)
      ensures created.Some? <==> user.Some? && reply.Success?
      ensures created.Some? ==> created.value == reply.value
      ensures memberInsert.Some? <==> created.Some?
      ensures memberInsert.Some? ==> memberInsert.value == MemberInsert(created.value.id, user.value)
    {
      if user.None? {
        return None, None, None;
      }
      roomInsert := Some(RoomInsert(name, user.value, code, isPrivate));
      if reply.Failure? {
        return roomInsert, None, None;
      }
      memberInsert := Some(MemberInsert(reply.value.id, user.value));
      created := Some(reply.value);
    }

    /**
     * `joinRoomWithCode` with the backend replies: the code lookup, whether the membership
     * lookup found a row, and the membership insert's reply. Returns its boolean result and the
     * membership row it inserts; on success the room becomes current.
     */
    method JoinRoomWithCode(code: string, lookup: Result<Room>, alreadyMember: bool, insert: Outcome)
      returns (ok: bool, query: Option<string>, memberInsert: Option<MemberInsert>)
      modifies this
      ensures ok == JoinSucceeded(JoinOutcome(old(user), lookup, alreadyMember, insert))
      ensures query.Some? <==> old(user).Some?
      ensures query.Some? ==> query.value == code
      ensures memberInsert.Some? <==> old(user).Some? && lookup.Success? && !alreadyMember
      ensures memberInsert.Some? ==> memberInsert.value == MemberInsert(lookup.value.id, old(user).value)
      ensures ok ==> currentRoom == Some(lookup.value)
      ensures !ok ==> currentRoom == old(currentRoom) && messages == old(messages) && roomMembers == old(roomMembers)
      ensures !ok ==> loadingMessages == old(loadingMessages)
      ensures ok && currentRoom != old(currentRoom) ==>
                loadingMessages && roomMembers == old(roomMembers) && messages == old(messages)
      ensures ok && currentRoom == old(currentRoom) ==>
                roomMembers == old(roomMembers) && messages == old(messages) && loadingMessages == old(loadingMessages)
      ensures user == old(user) && rooms == old(rooms) && loadingRooms == old(loadingRooms)
    {
      ok, query, memberInsert := false, None, None;
      var step := JoinOutcome(user, lookup, alreadyMember, insert);
      if user.Some? {
        query := Some(code);
        if lookup.Success? && !alreadyMember {
          memberInsert := Some(MemberInsert(lookup.value.id, user.value));
        }
      }
      if JoinSucceeded(step) {
        ok := true;
        SetCurrentRoom(Some(step.room));
      }
    }
  }

  /**
   * A room fetch that resolves after sign-out still lands: the INSERT asks for the room, the
   * user signs out (emptying the list), and the late reply leaves the signed-out session with
   * that room listed.
   */
  method RoomArrivesAfterSignOut(s: RoomSession, ev: MembershipEvent, room: Room)
    returns (fetch: Option<string>)
    requires ev.eventType == Insert && ConcernsUser(s.user, ev) && InsertedRoomId(ev).Some?
    modifies s
    ensures fetch == InsertedRoomId(ev)
    ensures s.user.None? && s.rooms == [room]
  {
    fetch := s.OnMembershipEvent(ev);
    s.OnUserChanged(None);
    s.OnRoomFetched(Some(room));
  }

  /**
   * A message whose sender profile arrives after a switch to another room is appended to that
   * other room's list: the room check is made only when the event arrives.
   */
  method MessageArrivesAfterSwitch(s: RoomSession, row: MessageRow, profile: Option<SenderProfile>, other: Room)
    requires AcceptsMessage(s.currentRoom, Some(row)) && other.id != row.roomId.value
    modifies s
    ensures s.currentRoom == Some(other)
    ensures |s.messages| > 0 && s.messages[|s.messages| - 1].roomId != s.currentRoom.value.id
  {
    var pending := s.OnMessageEvent(Some(row));
    s.SetCurrentRoom(Some(other));
    s.OnSenderProfile(pending.value, profile);
  }

  /**
   * The create-room dialog's submit as written: a blank name is rejected, otherwise the room is
   * created and then `selectRoom(room.id)` runs. That `selectRoom` searches the room list of
   * the render before the submit, which cannot hold the room just created, so a successful
   * create ends with no room selected.
   */
  method SubmitCreateRoom(s: RoomSession, name: string, isPrivate: bool, code: string, reply: Result<Room>)
    returns (created: Option<Room>)
    requires reply.Success? ==> forall i :: 0 <= i < |s.rooms| ==> s.rooms[i].id != reply.value.id
    modifies s
    ensures created.Some? <==> !Text.IsBlank(name) && old(s.user).Some? && reply.Success?
    ensures created.Some? ==> created.value == reply.value && s.currentRoom == None
    ensures created.None? ==> s.currentRoom == old(s.currentRoom)
    ensures s.rooms == old(s.rooms)
  {
    created := None;
    if Text.IsBlank(name) {
      return;
    }
    var listed := s.rooms;
    var _, _, room := s.CreateRoom(name, isPrivate, code, reply);
    created := room;
    if created.Some? {
      assert FindRoom(listed, created.value.id) == None;
      s.SelectRoom(Some(created.value.id));
    }
  }

  /** The submit as intended: a successful create makes the new room the current room. */
  method SubmitCreateRoomSelecting(s: RoomSession, name: string, isPrivate: bool, code: string, reply: Result<Room>)
    returns (created: Option<Room>)
    modifies s
    ensures created.Some? <==> !Text.IsBlank(name) && old(s.user).Some? && reply.Success?
    ensures created.Some? ==> created.value == reply.value && s.currentRoom == created
    ensures created.None? ==> s.currentRoom == old(s.currentRoom)
    ensures s.rooms == old(s.rooms)
  {
    created := None;
    if Text.IsBlank(name) {
      return;
    }
    var _, _, room := s.CreateRoom(name, isPrivate, code, reply);
    created := room;
    if created.Some? {
      s.SetCurrentRoom(created);
    }
  }
}
