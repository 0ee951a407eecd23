/**
 The server object that updates the registry in place: each handler leaves it as the
 registry's transition says.
 */
module RoomServer {
  import opened Registry
  import opened AscendingSets
  import opened Options

  /** The stored rooms are in the table but for those still to do. */
  ghost predicate LoadedBut(db: Db, rooms: map<string, Room>, todo: set<string>) {
    && (forall r :: r in rooms <==> r in db.rooms && r !in todo)
    && (forall r | r in rooms :: rooms[r] == StoredRoom(db, r))
  }

  lemma AllLoaded(home: string, db: Db, rooms: map<string, Room>)
    requires LoadedBut(db, rooms, {})
    ensures LoadRooms(home, db) == if home in rooms then rooms else rooms[home := Room("system", {}, {}, false)]
  {
  }

  class TcpServer {
    const home: string
    var sessions: map<int, Session>
    var nicknames: map<string, int>
    var rooms: map<string, Room>
    var db: Db

    ghost function State(): Registry.State
      reads this
    {
      Registry.State(home, sessions, nicknames, rooms, db)
    }

    /** start(): fill the room table from the Rooms and RoomBans tables, then add the default room. */
    constructor (home: string, db: Db)
      ensures State() == Boot(home, db)
    {
      this.home := home;
      this.db := db;
      sessions := map[];
      nicknames := map[];
      rooms := map[];
      new;
      var todo := db.rooms.Keys;
      while todo != {}
        invariant todo <= db.rooms.Keys
        invariant sessions == map[] && nicknames == map[] && this.db == db && this.home == home
        invariant LoadedBut(db, rooms, todo)
        decreases |todo|
      {
        var r :| r in todo;
        rooms := rooms[r := StoredRoom(db, r)];
        todo := todo - {r};
      }
      AllLoaded(home, db, rooms);
      if home !in rooms {
        rooms := rooms[home := Room("system", {}, {}, false)];
      }
    }

    method InsertMember(room: string, fd: int)
      modifies `rooms
      ensures rooms == AddMember(old(rooms), room, fd)
    {
      if room !in rooms {
        rooms := rooms[room := Room("", {}, {}, false)];
      }
      rooms := rooms[room := rooms[room].(members := rooms[room].members + {fd})];
    }

    method EraseMember(room: string, fd: int)
      modifies `rooms
      ensures rooms == DropMember(old(rooms), room, fd)
    {
      if room !in rooms {
        rooms := rooms[room := Room("", {}, {}, false)];
      }
      rooms := rooms[room := rooms[room].(members := rooms[room].members - {fd})];
    }

    method RemoveSession(fd: int)
      modifies `sessions, `nicknames, `rooms
      ensures State() == Disconnect(old(State()), fd)
    {
      var room := if fd in sessions then sessions[fd].room else "";
      if room != "" && room in rooms {
        EraseMember(room, fd);
      }
      if fd in sessions {
        if sessions[fd].authenticated {
          nicknames := nicknames - {sessions[fd].nick};
        }
        sessions := sessions - {fd};
      }
    }

    method Enter(fd: int, nick: string)
      requires fd in sessions
      modifies `sessions, `nicknames, `rooms
      ensures State() == EnterAs(old(State()), fd, nick)
    {
      var lastRoom := LastRoom(db, nick);
      var roomToJoin := home;
      if lastRoom != "" && lastRoom in rooms {
        roomToJoin := lastRoom;
      }
      sessions := sessions[fd := sessions[fd].(nick := nick, room := roomToJoin, authenticated := true)];
      sessions := sessions[fd := sessions[fd].(role := RoleOf(db, nick))];
      nicknames := nicknames[nick := fd];
      InsertMember(roomToJoin, fd);
    }

    method HandleConnectRequest(fd: int, nick: string, password: string, v: Verdict)
      modifies this
      ensures State() == Login(old(State()), fd, nick, password, v)
    {
      if fd !in sessions || !ValidNick(nick) {
        return;
      }
      if password == "" || nick in nicknames {
        RemoveSession(fd);
        return;
      }
      if nick !in db.users {
        if !v.registers {
          RemoveSession(fd);
          return;
        }
        db := db.(users := db.users[nick := UserRow(User, "")]);
      }
      if v.rateLimited {
        RemoveSession(fd);
      } else if v.passwordOk && !v.nickBanned {
        Enter(fd, nick);
      }
    }

    /** `subject` is the nickname of the token, if it validated and its account is not locked. */
    method HandleReconnectRequest(fd: int, subject: Option<string>)
      modifies `sessions, `nicknames, `rooms
      ensures State() == Reconnect(old(State()), fd, subject)
    {
      if fd !in sessions || subject.None? {
        return;
      }
      Enter(fd, subject.value);
    }

    method HandleRoomJoin(fd: int, room: string, passwordOk: bool)
      modifies this
      ensures State() == Join(old(State()), fd, room, passwordOk)
    {
      if !LoggedIn(sessions, fd) || room == "" {
        return;
      }
      var known := room in db.rooms;
      if known && db.rooms[room].hasPassword {
        if !passwordOk {
          return;
        }
      } else if !known && room != home {
        return;
      }
      var oldRoom := sessions[fd].room;
      if room in rooms && sessions[fd].nick in rooms[room].banned {
        return;
      }
      if oldRoom in rooms {
        EraseMember(oldRoom, fd);
      }
      InsertMember(room, fd);
      sessions := sessions[fd := sessions[fd].(room := room)];
      db := SetLastRoom(db, sessions[fd].nick, room);
    }

    method HandleRoomLeave(fd: int)
      modifies this
      ensures State() == Leave(old(State()), fd)
    {
      if !LoggedIn(sessions, fd) || sessions[fd].room == home {
        return;
      }
      EraseMember(sessions[fd].room, fd);
      InsertMember(home, fd);
      sessions := sessions[fd := sessions[fd].(room := home)];
      db := SetLastRoom(db, sessions[fd].nick, home);
    }

    method HandleRoomCreate(fd: int, room: string, password: string, dbOk: bool)
      modifies this
      ensures State() == Create(old(State()), fd, room, password, dbOk)
    {
      if !LoggedIn(sessions, fd) || room == "" || room in rooms || |rooms| >= MAX_ROOMS {
        return;
      }
      var nick := sessions[fd].nick;
      if dbOk && room !in db.rooms && nick in db.users {
        db := db.(rooms := db.rooms[room := RoomRow(nick, password != "")]);
        rooms := rooms[room := Room(nick, {}, {}, password != "")];
      }
    }

    /** A member of a deleted room moves to the default room, if its session is still there. */
    method MoveMember(member: int, ghost sessions0: map<int, Session>, ghost rooms0: map<string, Room>, ghost moved: set<int>)
      requires sessions == Rehome(sessions0, moved, home) && rooms == AddMembers(rooms0, moved, home)
      modifies `sessions, `rooms
      ensures sessions == Rehome(sessions0, moved + {member} * sessions0.Keys, home)
      ensures rooms == AddMembers(rooms0, moved + {member} * sessions0.Keys, home)
    {
      if member in sessions {
        AddOneMore(rooms0, moved, home, member);
        RehomeOneMore(sessions0, moved, home, member);
        assert {member} * sessions0.Keys == {member};
        InsertMember(home, member);
        sessions := sessions[member := sessions[member].(room := home)];
      } else {
        assert moved + {member} * sessions0.Keys == moved;
      }
    }

    method MoveMembers(membersToKick: set<int>)
      modifies `sessions, `rooms
      ensures sessions == Rehome(old(sessions), membersToKick * old(sessions).Keys, home)
      ensures rooms == AddMembers(old(rooms), membersToKick * old(sessions).Keys, home)
    {
      var todo := membersToKick;
      ghost var moved: set<int> := {};
      RehomeNone(sessions, home);
      while todo != {}
        invariant todo <= membersToKick
        invariant forall fd :: fd in moved <==> fd in membersToKick && fd !in todo && fd in old(sessions).Keys
        invariant sessions == Rehome(old(sessions), moved, home)
        invariant rooms == AddMembers(old(rooms), moved, home)
        decreases |todo|
      {
        HasLeast(todo);
        var member :| IsLeast(member, todo);
        todo := todo - {member};
        MoveMember(member, old(sessions), old(rooms), moved);
        moved := moved + {member} * old(sessions).Keys;
      }
      forall fd
        ensures fd in moved <==> fd in membersToKick * old(sessions).Keys
      {
      }
      assert moved == membersToKick * old(sessions).Keys;
    }

    method HandleRoomDelete(fd: int, room: string)
      modifies this
      ensures State() == Delete(old(State()), fd, room)
    {
      if !LoggedIn(sessions, fd) || room == home {
        return;
      }
      var creator := if room in db.rooms then db.rooms[room].creator else "";
      if creator == "" || (creator != sessions[fd].nick && sessions[fd].role == User) {
        return;
      }
      var membersToKick := {};
      if room in rooms {
        membersToKick := rooms[room].members;
        rooms := rooms - {room};
      }
      assert rooms == old(rooms) - {room};
      db := DropRoom(db, room);
      MoveMembers(membersToKick);
    }

    method KickFromRoom(adminFd: int, nick: string)
      modifies this
      ensures State() == Kick(old(State()), adminFd, nick)
    {
      if adminFd !in sessions || sessions[adminFd].role == User || nick !in nicknames || nicknames[nick] !in sessions {
        return;
      }
      var targetFd := nicknames[nick];
      var target := sessions[targetFd];
      if target.room != home {
        EraseMember(target.room, targetFd);
        rooms := rooms[target.room := rooms[target.room].(banned := rooms[target.room].banned + {target.nick})];
        db := BanRow(db, target.room, target.nick);
        InsertMember(home, targetFd);
        sessions := sessions[targetFd := target.(room := home)];
      }
    }

    method UnkickFromRoom(adminFd: int, nick: string, room: string)
      modifies `rooms, `db
      ensures State() == Unkick(old(State()), adminFd, nick, room)
    {
      if adminFd in sessions && sessions[adminFd].role != User && room in rooms && nick in rooms[room].banned {
        rooms := rooms[room := rooms[room].(banned := rooms[room].banned - {nick})];
        db := db.(bans := db.bans - {(room, nick)});
      }
    }

    /** Sends to each recipient once, in the order of their fds. */
    method BroadcastToRoom(room: string, excludeFd: int) returns (sent: seq<int>)
      ensures sent == Sorted(Recipients(State(), room, excludeFd))
    {
      sent := [];
      ghost var recipients := Recipients(State(), room, excludeFd);
      if room !in rooms {
        return;
      }
      var members := rooms[room].members;
      var todo := members;
      while todo != {}
        invariant todo <= members
        invariant Ascending(sent)
        invariant forall i, fd | 0 <= i < |sent| && fd in todo :: sent[i] < fd
        invariant forall fd :: fd in sent <==> fd in recipients && fd !in todo
        decreases |todo|
      {
        HasLeast(todo);
        var fd :| IsLeast(fd, todo);
        todo := todo - {fd};
        if fd != excludeFd && fd in sessions {
          sent := sent + [fd];
        }
      }
      AscendingUnique(sent, recipients);
    }

    /** The line goes out if the sender is not muted or over the rate, and the text passes the filter and the limits. */
    method HandleChatSend(fd: int, message: string, muted: bool, rateLimited: bool, filterPasses: bool)
      returns (sent: seq<int>)
      ensures sent == if ChatPasses(sessions, fd, message, muted, rateLimited, filterPasses)
                      then Sorted(Recipients(State(), sessions[fd].room, -1)) else []
    {
      if !LoggedIn(sessions, fd) || muted || rateLimited {
        return [];
      }
      if message == "" || !filterPasses || |message| > MAX_MESSAGE_LEN {
        return [];
      }
      sent := BroadcastToRoom(sessions[fd].room, -1);
    }
  }

  lemma AddOneMore(rooms: map<string, Room>, moved: set<int>, home: string, fd: int)
    ensures AddMember(AddMembers(rooms, moved, home), home, fd) == AddMembers(rooms, moved + {fd}, home)
  {
    if moved == {} {
      assert moved + {fd} == {fd};
    } else {
      var members := RoomAt(rooms, home).members;
      assert members + moved + {fd} == members + (moved + {fd});
    }
  }

  lemma RehomeNone(sessions: map<int, Session>, home: string)
    ensures Rehome(sessions, {}, home) == sessions
  {
  }

  lemma RehomeOneMore(sessions: map<int, Session>, moved: set<int>, home: string, fd: int)
    requires fd in sessions
    ensures Rehome(sessions, moved, home)[fd := Rehome(sessions, moved, home)[fd].(room := home)]
            == Rehome(sessions, moved + {fd}, home)
  {
  }
}
