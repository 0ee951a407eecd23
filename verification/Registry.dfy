/**
 The server's registry of sessions, nicknames and rooms, and the database tables
 the room table caches. Each handler is one step.
 */
module Registry {
  import opened Options
  import opened AscendingSets

  const MAX_ROOMS: nat := 32

  const MAX_MESSAGE_LEN: nat := 4096

  datatype Role = User | Admin | Owner

  datatype Session = Session(nick: string, room: string, authenticated: bool, role: Role)

  datatype Room = Room(creator: string, members: set<int>, banned: set<string>, hasPassword: bool)

  datatype UserRow = UserRow(role: Role, lastRoom: string)

  /** `hasPassword` stands for a stored password hash that is not empty. */
  datatype RoomRow = RoomRow(creator: string, hasPassword: bool)

  /** The Users, Rooms and RoomBans tables, keyed as their UNIQUE constraints say. */
  datatype Db = Db(users: map<string, UserRow>, rooms: map<string, RoomRow>, bans: set<(string, string)>)

  /** `home` is the configured default room. */
  datatype State = State(
    home: string, sessions: map<int, Session>, nicknames: map<string, int>, rooms: map<string, Room>, db: Db)

  // ----- The tables -----

  function LastRoom(db: Db, nick: string): string {
    if nick in db.users then db.users[nick].lastRoom else ""
  }

  function RoleOf(db: Db, nick: string): Role {
    if nick in db.users then db.users[nick].role else User
  }

  function SetLastRoom(db: Db, nick: string, room: string): Db {
    if nick in db.users then db.(users := db.users[nick := db.users[nick].(lastRoom := room)]) else db
  }

  /** INSERT into RoomBans: refused unless both foreign keys exist. */
  function BanRow(db: Db, room: string, nick: string): Db {
    if room in db.rooms && nick in db.users then db.(bans := db.bans + {(room, nick)}) else db
  }

  /** DELETE from Rooms cascades to the room's bans. */
  function DropRoom(db: Db, room: string): Db {
    db.(rooms := db.rooms - {room}, bans := set b | b in db.bans && b.0 != room)
  }

  function BansOf(db: Db, room: string): set<string> {
    set b | b in db.bans && b.0 == room :: b.1
  }

  function StoredRoom(db: Db, r: string): Room
    requires r in db.rooms
  {
    Room(db.rooms[r].creator, {}, BansOf(db, r), db.rooms[r].hasPassword)
  }

  /** The room table as the server builds it from the database when it starts. */
  function LoadRooms(home: string, db: Db): map<string, Room> {
    map r | r in db.rooms.Keys + {home} ::
      if r in db.rooms then StoredRoom(db, r)
      else Room("system", {}, {}, false)
  }

  function Boot(home: string, db: Db): State {
    State(home, map[], map[], LoadRooms(home, db), db)
  }

  function WithoutMembers(rooms: map<string, Room>): map<string, Room> {
    map r | r in rooms :: rooms[r].(members := {})
  }

  // ----- The room table -----

  /** operator[]: an absent room springs into existence empty. */
  function RoomAt(rooms: map<string, Room>, r: string): Room {
    if r in rooms then rooms[r] else Room("", {}, {}, false)
  }

  function AddMember(rooms: map<string, Room>, r: string, fd: int): map<string, Room> {
    rooms[r := RoomAt(rooms, r).(members := RoomAt(rooms, r).members + {fd})]
  }

  function DropMember(rooms: map<string, Room>, r: string, fd: int): map<string, Room> {
    rooms[r := RoomAt(rooms, r).(members := RoomAt(rooms, r).members - {fd})]
  }

  function AddBan(rooms: map<string, Room>, r: string, nick: string): map<string, Room> {
    rooms[r := RoomAt(rooms, r).(banned := RoomAt(rooms, r).banned + {nick})]
  }

  function DropBan(rooms: map<string, Room>, r: string, nick: string): map<string, Room> {
    rooms[r := RoomAt(rooms, r).(banned := RoomAt(rooms, r).banned - {nick})]
  }

  // ----- The handlers -----

  predicate LoggedIn(sessions: map<int, Session>, fd: int) {
    fd in sessions && sessions[fd].authenticated
  }

  function AcceptConn(s: State, fd: int): State {
    s.(sessions := s.sessions[fd := Session("", "", false, User)])
  }

  /** removeSession, as every disconnect ends in it. */
  function Disconnect(s: State, fd: int): State {
    if fd !in s.sessions then s
    else
      var sess := s.sessions[fd];
      s.(sessions := s.sessions - {fd},
         nicknames := if sess.authenticated then s.nicknames - {sess.nick} else s.nicknames,
         rooms := if sess.room != "" && sess.room in s.rooms then DropMember(s.rooms, sess.room, fd) else s.rooms)
  }

  function RoomToJoin(s: State, nick: string): string {
    if LastRoom(s.db, nick) != "" && LastRoom(s.db, nick) in s.rooms then LastRoom(s.db, nick) else s.home
  }

  /** The common end of a login and of a reconnect. */
  function EnterAs(s: State, fd: int, nick: string): State {
    var room := RoomToJoin(s, nick);
    s.(sessions := s.sessions[fd := Session(nick, room, true, RoleOf(s.db, nick))],
       nicknames := s.nicknames[nick := fd],
       rooms := AddMember(s.rooms, room, fd))
  }

  predicate NickChar(c: char) {
    'a' <= c <= 'z' || 'A' <= c <= 'Z' || '0' <= c <= '9' || c == '_'
  }

  predicate ValidNick(nick: string) {
    3 <= |nick| <= 32 && forall c | c in nick :: NickChar(c)
  }

  /** What the database, the rate limiter, the password check and the ban list answer during a login. */
  datatype Verdict = Verdict(registers: bool, rateLimited: bool, passwordOk: bool, nickBanned: bool)

  function Login(s: State, fd: int, nick: string, password: string, v: Verdict): State {
    if fd !in s.sessions || !ValidNick(nick) then s
    else if password == "" || nick in s.nicknames then Disconnect(s, fd)
    else if nick !in s.db.users && !v.registers then Disconnect(s, fd)
    else
      var s1 := if nick in s.db.users then s else s.(db := s.db.(users := s.db.users[nick := UserRow(User, "")]));
      if v.rateLimited then Disconnect(s1, fd)
      else if !v.passwordOk || v.nickBanned then s1
      else EnterAs(s1, fd, nick)
  }

  /** `nick` is the subject of a token that validated, if it did. */
  function Reconnect(s: State, fd: int, nick: Option<string>): State {
    if fd !in s.sessions || nick.None? then s else EnterAs(s, fd, nick.value)
  }

  function Join(s: State, fd: int, room: string, passwordOk: bool): State {
    if !LoggedIn(s.sessions, fd) || room == "" then s
    else
      var sess := s.sessions[fd];
      if room in s.db.rooms && s.db.rooms[room].hasPassword && !passwordOk then s
      else if room !in s.db.rooms && room != s.home then s
      else if room in s.rooms && sess.nick in s.rooms[room].banned then s
      else
        var left := if sess.room in s.rooms then DropMember(s.rooms, sess.room, fd) else s.rooms;
        s.(sessions := s.sessions[fd := sess.(room := room)],
           rooms := AddMember(left, room, fd),
           db := SetLastRoom(s.db, sess.nick, room))
  }

  function Leave(s: State, fd: int): State {
    if !LoggedIn(s.sessions, fd) || s.sessions[fd].room == s.home then s
    else
      var sess := s.sessions[fd];
      s.(sessions := s.sessions[fd := sess.(room := s.home)],
         rooms := AddMember(DropMember(s.rooms, sess.room, fd), s.home, fd),
         db := SetLastRoom(s.db, sess.nick, s.home))
  }

  function Create(s: State, fd: int, room: string, password: string, dbOk: bool): State {
    if !LoggedIn(s.sessions, fd) || room == "" || room in s.rooms || |s.rooms| >= MAX_ROOMS then s
    else
      var nick := s.sessions[fd].nick;
      if !dbOk || room in s.db.rooms || nick !in s.db.users then s
      else s.(rooms := s.rooms[room := Room(nick, {}, {}, password != "")],
              db := s.db.(rooms := s.db.rooms[room := RoomRow(nick, password != "")]))
  }

  predicate MayDelete(s: State, fd: int, room: string) {
    && LoggedIn(s.sessions, fd)
    && room != s.home
    && room in s.db.rooms
    && s.db.rooms[room].creator != ""
    && (s.db.rooms[room].creator == s.sessions[fd].nick || s.sessions[fd].role != User)
  }

  /** Members of a deleted room move to the default room. */
  function Rehome(sessions: map<int, Session>, moved: set<int>, home: string): map<int, Session> {
    map fd | fd in sessions :: if fd in moved then sessions[fd].(room := home) else sessions[fd]
  }

  function AddMembers(rooms: map<string, Room>, moved: set<int>, r: string): map<string, Room> {
    if moved == {} then rooms else rooms[r := RoomAt(rooms, r).(members := RoomAt(rooms, r).members + moved)]
  }

  function Delete(s: State, fd: int, room: string): State {
    if !MayDelete(s, fd, room) then s
    else
      var moved := if room in s.rooms then s.rooms[room].members * s.sessions.Keys else {};
      s.(sessions := Rehome(s.sessions, moved, s.home),
         rooms := AddMembers(s.rooms - {room}, moved, s.home),
         db := DropRoom(s.db, room))
  }

  predicate IsAdmin(s: State, fd: int) {
    fd in s.sessions && s.sessions[fd].role != User
  }

  predicate MayKick(s: State, adminFd: int, nick: string) {
    && IsAdmin(s, adminFd)
    && nick in s.nicknames && s.nicknames[nick] in s.sessions
    && s.sessions[s.nicknames[nick]].room != s.home
  }

  /** An administrator's kick of whoever goes by a nickname. */
  function Kick(s: State, adminFd: int, nick: string): State {
    if !MayKick(s, adminFd, nick) then s
    else
      var fd := s.nicknames[nick];
      var sess := s.sessions[fd];
      var gone := DropMember(s.rooms, sess.room, fd);
      s.(sessions := s.sessions[fd := sess.(room := s.home)],
         rooms := AddMember(AddBan(gone, sess.room, sess.nick), s.home, fd),
         db := BanRow(s.db, sess.room, sess.nick))
  }

  function Unkick(s: State, adminFd: int, nick: string, room: string): State {
    if !IsAdmin(s, adminFd) || room !in s.rooms || nick !in s.rooms[room].banned then s
    else s.(rooms := DropBan(s.rooms, room, nick),
            db := s.db.(bans := s.db.bans - {(room, nick)}))
  }

  /** An owner's promotion or demotion, in memory only. */
  function SetRole(s: State, ownerFd: int, nick: string, role: Role): State {
    if ownerFd !in s.sessions || s.sessions[ownerFd].role != Owner
       || nick !in s.nicknames || s.nicknames[nick] !in s.sessions then s
    else s.(sessions := s.sessions[s.nicknames[nick] := s.sessions[s.nicknames[nick]].(role := role)])
  }

  // ----- The invariant -----

  /** A room's members are the sessions logged in to it. */
  ghost predicate MembersFine(sessions: map<int, Session>, rooms: map<string, Room>) {
    && (forall r, fd | r in rooms :: fd in rooms[r].members <==> LoggedIn(sessions, fd) && sessions[fd].room == r)
    && (forall fd | LoggedIn(sessions, fd) :: sessions[fd].room in rooms && sessions[fd].room != "")
    && (forall fd | fd in sessions && !sessions[fd].authenticated :: sessions[fd] == Session("", "", false, User))
  }

  /** A nickname leads to a session logged in under it. */
  ghost predicate NicksFine(sessions: map<int, Session>, nicknames: map<string, int>) {
    forall n | n in nicknames :: LoggedIn(sessions, nicknames[n]) && sessions[nicknames[n]].nick == n
  }

  ghost predicate Indexed(s: State) {
    s.home in s.rooms && MembersFine(s.sessions, s.rooms) && NicksFine(s.sessions, s.nicknames)
  }

  /** The foreign keys of the tables. */
  ghost predicate KeysHold(db: Db) {
    && (forall r | r in db.rooms :: db.rooms[r].creator in db.users)
    && (forall b | b in db.bans :: b.0 in db.rooms && b.1 in db.users)
  }

  /** The room table holds the database's rooms and the default room, with their creators, passwords and bans. */
  ghost predicate Copied(home: string, rooms: map<string, Room>, db: Db) {
    && (forall r :: r in rooms <==> r in db.rooms || r == home)
    && (forall r | r in db.rooms ::
          rooms[r].creator == db.rooms[r].creator && rooms[r].hasPassword == db.rooms[r].hasPassword)
    && (home !in db.rooms ==> rooms[home].creator == "system" && !rooms[home].hasPassword)
    && (forall r, n | r in rooms :: n in rooms[r].banned <==> (r, n) in db.bans)
  }

  /** Whoever is logged in has a row. */
  ghost predicate Known(sessions: map<int, Session>, users: map<string, UserRow>) {
    forall fd | LoggedIn(sessions, fd) :: sessions[fd].nick in users
  }

  ghost predicate Cached(s: State) {
    KeysHold(s.db) && Copied(s.home, s.rooms, s.db) && Known(s.sessions, s.db.users)
  }

  ghost predicate Inv(s: State) {
    s.home != "" && Indexed(s) && Cached(s) && |s.rooms| <= MAX_ROOMS && forall fd | fd in s.sessions :: 0 <= fd
  }

  // ----- Events -----

  datatype Event =
    | Accepted(fd: int)
    | LoginSent(fd: int, nick: string, password: string, verdict: Verdict)
    | ReconnectSent(fd: int, subject: Option<string>)
    | JoinSent(fd: int, room: string, passwordOk: bool)
    | LeaveSent(fd: int)
    | CreateSent(fd: int, room: string, password: string)
    | DeleteSent(fd: int, room: string)
    | KickSent(fd: int, nick: string)
    | UnkickSent(fd: int, nick: string, room: string)
    | RoleSent(fd: int, nick: string, role: Role)
    | Disconnected(fd: int)
    | Restarted

  /** A connection logs in at most once, tokens name existing users, accept returns an fd that is not open. */
  predicate Possible(s: State, e: Event) {
    match e
    case Accepted(fd) => 0 <= fd && fd !in s.sessions
    case LoginSent(fd, _, _, _) => !LoggedIn(s.sessions, fd)
    case ReconnectSent(fd, subject) => !LoggedIn(s.sessions, fd) && (subject.Some? ==> subject.value in s.db.users)
    case _ => true
  }

  /** One handler, with the database's writes succeeding. */
  function Step(s: State, e: Event): State {
    match e
    case Accepted(fd) => AcceptConn(s, fd)
    case LoginSent(fd, nick, password, v) => Login(s, fd, nick, password, v)
    case ReconnectSent(fd, subject) => Reconnect(s, fd, subject)
    case JoinSent(fd, room, ok) => Join(s, fd, room, ok)
    case LeaveSent(fd) => Leave(s, fd)
    case CreateSent(fd, room, password) => Create(s, fd, room, password, true)
    case DeleteSent(fd, room) => Delete(s, fd, room)
    case KickSent(fd, nick) => Kick(s, fd, nick)
    case UnkickSent(fd, nick, room) => Unkick(s, fd, nick, room)
    case RoleSent(fd, nick, role) => SetRole(s, fd, nick, role)
    case Disconnected(fd) => Disconnect(s, fd)
    case Restarted => Boot(s.home, s.db)
  }

  ghost predicate Run(home: string, db: Db, trace: seq<State>, events: seq<Event>) {
    && |trace| == |events| + 1
    && trace[0] == Boot(home, db)
    && forall i | 0 <= i < |events| :: Possible(trace[i], events[i]) && trace[i + 1] == Step(trace[i], events[i])
  }

  // ----- Every handler keeps the indexes in agreement -----

  lemma DisconnectIndexed(s: State, fd: int)
    requires s.home != "" && Indexed(s)
    ensures Indexed(Disconnect(s, fd))
  {
    var t := Disconnect(s, fd);
    forall r, f | r in t.rooms
      ensures f in t.rooms[r].members <==> LoggedIn(t.sessions, f) && t.sessions[f].room == r
    {
      assert f in s.rooms[r].members <==> LoggedIn(s.sessions, f) && s.sessions[f].room == r;
    }
  }

  lemma EnterIndexed(s: State, fd: int, nick: string)
    requires s.home != "" && Indexed(s)
    requires fd in s.sessions && !LoggedIn(s.sessions, fd)
    ensures Indexed(EnterAs(s, fd, nick))
  {
  }

  lemma LoginIndexed(s: State, fd: int, nick: string, password: string, v: Verdict)
    requires s.home != "" && Indexed(s)
    requires !LoggedIn(s.sessions, fd)
    ensures Indexed(Login(s, fd, nick, password, v))
  {
    var s1 := if nick in s.db.users then s else s.(db := s.db.(users := s.db.users[nick := UserRow(User, "")]));
    assert Indexed(s1);
    DisconnectIndexed(s, fd);
    DisconnectIndexed(s1, fd);
    if fd in s.sessions {
      EnterIndexed(s1, fd, nick);
    }
  }

  /** A session moves to another room. */
  lemma MoveMembers(sessions: map<int, Session>, rooms: map<string, Room>, rooms': map<string, Room>, fd: int, room: string)
    requires MembersFine(sessions, rooms) && LoggedIn(sessions, fd) && room in rooms && room != ""
    requires rooms'.Keys == rooms.Keys
    requires forall r | r in rooms ::
               rooms'[r].members == if r == room then rooms[r].members + {fd} else rooms[r].members - {fd}
    ensures MembersFine(sessions[fd := sessions[fd].(room := room)], rooms')
  {
    var sessions' := sessions[fd := sessions[fd].(room := room)];
    forall r, f | r in rooms'
      ensures f in rooms'[r].members <==> LoggedIn(sessions', f) && sessions'[f].room == r
    {
      assert f in rooms[r].members <==> LoggedIn(sessions, f) && sessions[f].room == r;
    }
  }

  /** Rooms change members only: fd moves from one room to another. */
  lemma MoveIndexed(s: State, t: State, fd: int, room: string)
    requires s.home != "" && Indexed(s)
    requires LoggedIn(s.sessions, fd) && room in s.rooms && room != ""
    requires t.home == s.home && t.nicknames == s.nicknames
    requires t.sessions == s.sessions[fd := s.sessions[fd].(room := room)]
    requires t.rooms.Keys == s.rooms.Keys
    requires forall r | r in s.rooms ::
               t.rooms[r].members == if r == room then s.rooms[r].members + {fd} else s.rooms[r].members - {fd}
    ensures Indexed(t)
  {
    MoveMembers(s.sessions, s.rooms, t.rooms, fd, room);
  }

  lemma JoinIndexed(s: State, fd: int, room: string, ok: bool)
    requires Inv(s)
    ensures Indexed(Join(s, fd, room, ok))
  {
    var t := Join(s, fd, room, ok);
    if t != s {
      MoveIndexed(s, t, fd, room);
    }
  }

  lemma LeaveIndexed(s: State, fd: int)
    requires Inv(s)
    ensures Indexed(Leave(s, fd))
  {
    var t := Leave(s, fd);
    if t != s {
      MoveIndexed(s, t, fd, s.home);
    }
  }

  /** A kick changes the members of two rooms: the target was in no other. */
  lemma KickRooms(rooms: map<string, Room>, from: string, fd: int, nick: string, home: string)
    requires from in rooms && home in rooms && from != home
    requires forall r | r in rooms && r != from :: fd !in rooms[r].members
    ensures var after := AddMember(AddBan(DropMember(rooms, from, fd), from, nick), home, fd);
      && after.Keys == rooms.Keys
      && forall r | r in rooms :: after[r].members == if r == home then rooms[r].members + {fd} else rooms[r].members - {fd}
  {
  }

  lemma KickIndexed(s: State, adminFd: int, nick: string)
    requires Inv(s)
    ensures Indexed(Kick(s, adminFd, nick))
  {
    if MayKick(s, adminFd, nick) {
      var fd := s.nicknames[nick];
      KickRooms(s.rooms, s.sessions[fd].room, fd, nick, s.home);
      MoveIndexed(s, Kick(s, adminFd, nick), fd, s.home);
    }
  }

  lemma DeleteMembers(sessions: map<int, Session>, rooms: map<string, Room>, room: string, home: string)
    requires MembersFine(sessions, rooms)
    requires home in rooms && home != "" && room in rooms && room != home
    ensures MembersFine(Rehome(sessions, rooms[room].members, home), AddMembers(rooms - {room}, rooms[room].members, home))
  {
    var ss := Rehome(sessions, rooms[room].members, home);
    var rs := AddMembers(rooms - {room}, rooms[room].members, home);
    forall r, f | r in rs
      ensures f in rs[r].members <==> LoggedIn(ss, f) && ss[f].room == r
    {
      assert f in rooms[r].members <==> LoggedIn(sessions, f) && sessions[f].room == r;
      assert f in rooms[room].members <==> LoggedIn(sessions, f) && sessions[f].room == room;
    }
  }

  /** Exactly the members of the deleted room move, to the default room. */
  lemma DeleteMoves(s: State, fd: int, room: string)
    requires Inv(s) && MayDelete(s, fd, room)
    ensures var t := Delete(s, fd, room);
      && t.sessions.Keys == s.sessions.Keys
      && (forall f | f in s.sessions ::
            t.sessions[f] == if f in s.rooms[room].members then s.sessions[f].(room := s.home) else s.sessions[f])
      && t.rooms.Keys == s.rooms.Keys - {room}
      && t.rooms[s.home].members == s.rooms[s.home].members + s.rooms[room].members
  {
    forall f | f in s.rooms[room].members
      ensures f in s.sessions
    {
      assert LoggedIn(s.sessions, f);
    }
    assert s.rooms[room].members * s.sessions.Keys == s.rooms[room].members;
  }

  lemma DeleteIndexed(s: State, fd: int, room: string)
    requires Inv(s)
    ensures Indexed(Delete(s, fd, room))
  {
    if MayDelete(s, fd, room) {
      forall f | f in s.rooms[room].members
        ensures f in s.sessions
      {
        assert LoggedIn(s.sessions, f);
      }
      assert s.rooms[room].members * s.sessions.Keys == s.rooms[room].members;
      DeleteMembers(s.sessions, s.rooms, room, s.home);
    }
  }

  lemma AcceptIndexed(s: State, fd: int)
    requires Indexed(s) && fd !in s.sessions
    ensures Indexed(AcceptConn(s, fd))
  {
    var t := AcceptConn(s, fd);
    forall f
      ensures LoggedIn(t.sessions, f) <==> LoggedIn(s.sessions, f)
    {
    }
  }

  lemma CreateIndexed(s: State, fd: int, room: string, password: string)
    requires Inv(s)
    ensures Indexed(Create(s, fd, room, password, true))
  {
    assert forall f | LoggedIn(s.sessions, f) :: s.sessions[f].room in s.rooms;
  }

  lemma UnkickIndexed(s: State, adminFd: int, nick: string, room: string)
    requires Indexed(s)
    ensures Indexed(Unkick(s, adminFd, nick, room))
  {
  }

  lemma RoleIndexed(s: State, ownerFd: int, nick: string, role: Role)
    requires Indexed(s)
    ensures Indexed(SetRole(s, ownerFd, nick, role))
  {
    var t := SetRole(s, ownerFd, nick, role);
    forall f
      ensures LoggedIn(t.sessions, f) <==> LoggedIn(s.sessions, f)
    {
    }
  }

  // ----- Every handler keeps the room table a copy of the database -----

  lemma MemberCopied(home: string, rooms: map<string, Room>, db: Db, r: string, fd: int)
    requires Copied(home, rooms, db) && r in rooms
    ensures Copied(home, AddMember(rooms, r, fd), db)
    ensures Copied(home, DropMember(rooms, r, fd), db)
  {
  }

  lemma BanCopied(home: string, rooms: map<string, Room>, db: Db, r: string, nick: string)
    requires Copied(home, rooms, db) && r in db.rooms && nick in db.users
    ensures Copied(home, AddBan(rooms, r, nick), BanRow(db, r, nick))
  {
  }

  lemma UnbanCopied(home: string, rooms: map<string, Room>, db: Db, r: string, nick: string)
    requires Copied(home, rooms, db) && r in rooms
    ensures Copied(home, DropBan(rooms, r, nick), db.(bans := db.bans - {(r, nick)}))
  {
  }

  lemma LastRoomKeeps(s: State, nick: string, room: string)
    requires Cached(s)
    ensures Cached(s.(db := SetLastRoom(s.db, nick, room)))
  {
  }

  lemma DisconnectCached(s: State, fd: int)
    requires Cached(s)
    ensures Cached(Disconnect(s, fd))
  {
    if fd in s.sessions && s.sessions[fd].room in s.rooms {
      MemberCopied(s.home, s.rooms, s.db, s.sessions[fd].room, fd);
    }
  }

  lemma EnterCached(s: State, fd: int, nick: string)
    requires Cached(s)
    requires nick in s.db.users
    ensures Cached(EnterAs(s, fd, nick))
  {
    MemberCopied(s.home, s.rooms, s.db, RoomToJoin(s, nick), fd);
  }

  lemma RegisterCached(s: State, nick: string)
    requires Cached(s) && nick !in s.db.users
    ensures Cached(s.(db := s.db.(users := s.db.users[nick := UserRow(User, "")])))
  {
  }

  lemma LoginCached(s: State, fd: int, nick: string, password: string, v: Verdict)
    requires Cached(s)
    ensures Cached(Login(s, fd, nick, password, v))
  {
    DisconnectCached(s, fd);
    var s1 := if nick in s.db.users then s else s.(db := s.db.(users := s.db.users[nick := UserRow(User, "")]));
    if nick !in s.db.users {
      RegisterCached(s, nick);
    }
    DisconnectCached(s1, fd);
    EnterCached(s1, fd, nick);
  }

  /** A session moves between rooms that exist. */
  lemma MoveCached(s: State, fd: int, from: string, to: string)
    requires Cached(s) && LoggedIn(s.sessions, fd) && from in s.rooms && to in s.rooms
    ensures Cached(s.(sessions := s.sessions[fd := s.sessions[fd].(room := to)],
                      rooms := AddMember(DropMember(s.rooms, from, fd), to, fd)))
  {
    MemberCopied(s.home, s.rooms, s.db, from, fd);
    MemberCopied(s.home, DropMember(s.rooms, from, fd), s.db, to, fd);
  }

  lemma JoinCached(s: State, fd: int, room: string, ok: bool)
    requires Inv(s)
    ensures Cached(Join(s, fd, room, ok))
  {
    if Join(s, fd, room, ok) != s {
      MoveCached(s, fd, s.sessions[fd].room, room);
      LastRoomKeeps(s.(sessions := s.sessions[fd := s.sessions[fd].(room := room)],
                       rooms := AddMember(DropMember(s.rooms, s.sessions[fd].room, fd), room, fd)),
                    s.sessions[fd].nick, room);
    }
  }

  lemma LeaveCached(s: State, fd: int)
    requires Inv(s)
    ensures Cached(Leave(s, fd))
  {
    if Leave(s, fd) != s {
      MoveCached(s, fd, s.sessions[fd].room, s.home);
      LastRoomKeeps(s.(sessions := s.sessions[fd := s.sessions[fd].(room := s.home)],
                       rooms := AddMember(DropMember(s.rooms, s.sessions[fd].room, fd), s.home, fd)),
                    s.sessions[fd].nick, s.home);
    }
  }

  lemma CreateCached(s: State, fd: int, room: string, password: string)
    requires Inv(s)
    ensures var t := Create(s, fd, room, password, true);
      && Cached(t)
      && (LoggedIn(s.sessions, fd) && room != "" && room !in s.rooms && |s.rooms| < MAX_ROOMS ==>
            && room in t.rooms && t.rooms[room] == Room(s.sessions[fd].nick, {}, {}, password != "")
            && room in t.db.rooms && t.db.rooms[room] == RoomRow(s.sessions[fd].nick, password != ""))
  {
  }

  lemma DeleteCopied(home: string, rooms: map<string, Room>, db: Db, room: string, moved: set<int>)
    requires KeysHold(db) && Copied(home, rooms, db) && room in db.rooms && room != home
    ensures KeysHold(DropRoom(db, room))
    ensures Copied(home, AddMembers(rooms - {room}, moved, home), DropRoom(db, room))
  {
  }

  lemma DeleteCached(s: State, fd: int, room: string)
    requires Inv(s)
    ensures Cached(Delete(s, fd, room))
  {
    if MayDelete(s, fd, room) {
      DeleteCopied(s.home, s.rooms, s.db, room, s.rooms[room].members * s.sessions.Keys);
    }
  }

  lemma KickCopied(home: string, rooms: map<string, Room>, db: Db, fd: int, room: string, nick: string)
    requires Copied(home, rooms, db) && room in db.rooms && nick in db.users
    ensures Copied(home, AddMember(AddBan(DropMember(rooms, room, fd), room, nick), home, fd), BanRow(db, room, nick))
  {
    var gone := DropMember(rooms, room, fd);
    MemberCopied(home, rooms, db, room, fd);
    BanCopied(home, gone, db, room, nick);
    MemberCopied(home, AddBan(gone, room, nick), BanRow(db, room, nick), home, fd);
  }

  lemma KickCached(s: State, adminFd: int, nick: string)
    requires Inv(s)
    ensures Cached(Kick(s, adminFd, nick))
    ensures MayKick(s, adminFd, nick) ==>
      var t, room := Kick(s, adminFd, nick), s.sessions[s.nicknames[nick]].room;
      room in t.rooms && nick in t.rooms[room].banned && (room, nick) in t.db.bans
  {
    if MayKick(s, adminFd, nick) {
      var fd := s.nicknames[nick];
      KickCopied(s.home, s.rooms, s.db, fd, s.sessions[fd].room, nick);
    }
  }

  lemma UnkickCached(s: State, adminFd: int, nick: string, room: string)
    requires Inv(s)
    ensures Cached(Unkick(s, adminFd, nick, room))
  {
    if Unkick(s, adminFd, nick, room) != s {
      UnbanCopied(s.home, s.rooms, s.db, room, nick);
    }
  }

  // ----- Every run keeps the invariant -----

  /** What the server starts with: tables whose foreign keys hold, and room for the room table. */
  ghost predicate CanBoot(home: string, db: Db) {
    home != "" && KeysHold(db) && |LoadRooms(home, db)| <= MAX_ROOMS
  }

  lemma BootInv(home: string, db: Db)
    requires CanBoot(home, db)
    ensures Inv(Boot(home, db))
  {
    var rooms := LoadRooms(home, db);
    forall r, n | r in rooms
      ensures n in rooms[r].banned <==> (r, n) in db.bans
    {
      if (r, n) in db.bans {
        assert (r, n).0 in db.rooms;
      }
    }
  }

  /** The server can start on an empty database. */
  lemma EmptyDatabaseBoots(home: string)
    requires home != ""
    ensures CanBoot(home, Db(map[], map[], {}))
    ensures LoadRooms(home, Db(map[], map[], {})) == map[home := Room("system", {}, {}, false)]
  {
    var rooms := LoadRooms(home, Db(map[], map[], {}));
    assert rooms.Keys == {home} && |rooms| == |rooms.Keys|;
  }

  lemma RestartRooms(s: State)
    requires KeysHold(s.db) && Copied(s.home, s.rooms, s.db)
    ensures WithoutMembers(s.rooms) == LoadRooms(s.home, s.db)
    ensures |LoadRooms(s.home, s.db)| == |s.rooms|
  {
    var before, after := WithoutMembers(s.rooms), LoadRooms(s.home, s.db);
    assert before.Keys == after.Keys;
    forall r | r in before
      ensures before[r] == after[r]
    {
      forall n
        ensures n in before[r].banned <==> n in after[r].banned
      {
        if (r, n) in s.db.bans {
          assert (r, n).0 in s.db.rooms;
        }
      }
      assert before[r].banned == after[r].banned;
    }
    assert before == after;
    assert s.rooms.Keys == before.Keys;
    assert |s.rooms.Keys| == |s.rooms| && |after.Keys| == |after|;
  }

  lemma StepIndexed(s: State, e: Event)
    requires Inv(s) && Possible(s, e) && !e.Restarted?
    ensures Indexed(Step(s, e))
  {
    match e
    case Accepted(fd) => AcceptIndexed(s, fd);
    case LoginSent(fd, nick, password, v) => LoginIndexed(s, fd, nick, password, v);
    case ReconnectSent(fd, subject) =>
      if fd in s.sessions && subject.Some? { EnterIndexed(s, fd, subject.value); }
    case JoinSent(fd, room, ok) => JoinIndexed(s, fd, room, ok);
    case LeaveSent(fd) => LeaveIndexed(s, fd);
    case CreateSent(fd, room, password) => CreateIndexed(s, fd, room, password);
    case DeleteSent(fd, room) => DeleteIndexed(s, fd, room);
    case KickSent(fd, nick) => KickIndexed(s, fd, nick);
    case UnkickSent(fd, nick, room) => UnkickIndexed(s, fd, nick, room);
    case RoleSent(fd, nick, role) => RoleIndexed(s, fd, nick, role);
    case Disconnected(fd) => DisconnectIndexed(s, fd);
  }

  lemma StepCached(s: State, e: Event)
    requires Inv(s) && Possible(s, e) && !e.Restarted?
    ensures Cached(Step(s, e))
  {
    match e
    case Accepted(fd) =>
    case LoginSent(fd, nick, password, v) => LoginCached(s, fd, nick, password, v);
    case ReconnectSent(fd, subject) =>
      if subject.Some? { EnterCached(s, fd, subject.value); }
    case JoinSent(fd, room, ok) => JoinCached(s, fd, room, ok);
    case LeaveSent(fd) => LeaveCached(s, fd);
    case CreateSent(fd, room, password) => CreateCached(s, fd, room, password);
    case DeleteSent(fd, room) => DeleteCached(s, fd, room);
    case KickSent(fd, nick) => KickCached(s, fd, nick);
    case UnkickSent(fd, nick, room) => UnkickCached(s, fd, nick, room);
    case RoleSent(fd, nick, role) =>
    case Disconnected(fd) => DisconnectCached(s, fd);
  }

  /** Only a create adds a room, and only below the limit. */
  lemma StepCount(s: State, e: Event)
    requires Inv(s) && Possible(s, e) && !e.Restarted?
    ensures |Step(s, e).rooms| <= MAX_ROOMS
    ensures forall r | r in Step(s, e).rooms && r !in s.rooms :: e.CreateSent? && e.room == r && |s.rooms| < MAX_ROOMS
  {
    var t := Step(s, e);
    assert |t.rooms| == |t.rooms.Keys| && |s.rooms| == |s.rooms.Keys|;
    if e.CreateSent? {
    } else if e.DeleteSent? {
      Fewer(t.rooms.Keys, s.rooms.Keys);
    } else {
      SameRooms(s, e);
      assert t.rooms.Keys == s.rooms.Keys;
    }
  }

  lemma {:induction false} Fewer<T>(a: set<T>, b: set<T>)
    requires a <= b
    ensures |a| <= |b|
  {
    assert b == a + (b - a);
  }

  /** What the handlers below need to find their rooms. */
  ghost predicate RoomsKnown(s: State) {
    && s.home in s.rooms
    && NicksFine(s.sessions, s.nicknames)
    && (forall fd | LoggedIn(s.sessions, fd) :: s.sessions[fd].room in s.rooms)
    && (forall r :: r in s.rooms <==> r in s.db.rooms || r == s.home)
  }

  lemma EntriesKeepRooms(s: State, e: Event)
    requires RoomsKnown(s) && (e.LoginSent? || e.ReconnectSent? || e.Disconnected?)
    ensures forall r :: r in Step(s, e).rooms <==> r in s.rooms
  {
  }

  lemma MovesKeepRooms(s: State, e: Event)
    requires RoomsKnown(s) && (e.JoinSent? || e.LeaveSent? || e.KickSent?)
    ensures forall r :: r in Step(s, e).rooms <==> r in s.rooms
  {
  }

  /** No handler but create and delete changes which rooms there are: operator[] never makes a stray one. */
  lemma SameRooms(s: State, e: Event)
    requires RoomsKnown(s) && !e.Restarted? && !e.CreateSent? && !e.DeleteSent?
    ensures forall r :: r in Step(s, e).rooms <==> r in s.rooms
  {
    if e.JoinSent? || e.LeaveSent? || e.KickSent? {
      MovesKeepRooms(s, e);
    } else if e.LoginSent? || e.ReconnectSent? || e.Disconnected? {
      EntriesKeepRooms(s, e);
    }
  }

  lemma StepFds(s: State, e: Event)
    requires forall fd | fd in s.sessions :: 0 <= fd
    requires NicksFine(s.sessions, s.nicknames)
    requires Possible(s, e)
    ensures Step(s, e).home == s.home
    ensures forall fd | fd in Step(s, e).sessions :: 0 <= fd
  {
  }

  lemma StepInv(s: State, e: Event)
    requires Inv(s) && Possible(s, e)
    ensures Inv(Step(s, e)) && Step(s, e).home == s.home
  {
    if e.Restarted? {
      RestartRooms(s);
      BootInv(s.home, s.db);
    } else {
      StepIndexed(s, e);
      StepCached(s, e);
      StepCount(s, e);
      StepFds(s, e);
    }
  }

  lemma {:induction false} InvHolds(home: string, db: Db, trace: seq<State>, events: seq<Event>, i: nat)
    requires CanBoot(home, db) && Run(home, db, trace, events) && i < |trace|
    ensures Inv(trace[i]) && trace[i].home == home
  {
    if i == 0 {
      BootInv(home, db);
    } else {
      InvHolds(home, db, trace, events, i - 1);
      StepInv(trace[i - 1], events[i - 1]);
    }
  }

  // ----- What holds throughout every run -----

  /** Room membership, session fields and the nickname table tell the same story. */
  lemma IndexesAgree(home: string, db: Db, trace: seq<State>, events: seq<Event>, i: nat, room: string, fd: int, nick: string)
    requires CanBoot(home, db) && Run(home, db, trace, events) && i < |trace|
    ensures var s := trace[i];
      && (room in s.rooms ==> (fd in s.rooms[room].members <==> LoggedIn(s.sessions, fd) && s.sessions[fd].room == room))
      && (LoggedIn(s.sessions, fd) ==> s.sessions[fd].room in s.rooms && s.sessions[fd].nick in s.db.users)
      && (nick in s.nicknames ==> LoggedIn(s.sessions, s.nicknames[nick]) && s.sessions[s.nicknames[nick]].nick == nick)
  {
    InvHolds(home, db, trace, events, i);
  }

  /** A restart would rebuild the room table exactly, but for who is in the rooms; and the table stays small. */
  lemma RestartRebuilds(home: string, db: Db, trace: seq<State>, events: seq<Event>, i: nat)
    requires CanBoot(home, db) && Run(home, db, trace, events) && i < |trace|
    ensures WithoutMembers(trace[i].rooms) == LoadRooms(home, trace[i].db)
    ensures |trace[i].rooms| <= MAX_ROOMS
  {
    InvHolds(home, db, trace, events, i);
    RestartRooms(trace[i]);
  }

  // ----- Who a broadcast reaches -----

  function Recipients(s: State, room: string, exclude: int): set<int> {
    if room !in s.rooms then {}
    else set fd | fd in s.rooms[room].members && fd != exclude && fd in s.sessions
  }

  /** A chat line reaches the sessions logged in to the sender's room, the sender among them, and no other. */
  lemma ChatReachesRoom(home: string, db: Db, trace: seq<State>, events: seq<Event>, i: nat, sender: int, fd: int)
    requires CanBoot(home, db) && Run(home, db, trace, events) && i < |trace|
    requires LoggedIn(trace[i].sessions, sender)
    ensures var s := trace[i];
      && sender in Recipients(s, s.sessions[sender].room, -1)
      && (fd in Recipients(s, s.sessions[sender].room, -1)
          <==> LoggedIn(s.sessions, fd) && s.sessions[fd].room == s.sessions[sender].room)
  {
    InvHolds(home, db, trace, events, i);
    var s := trace[i];
    var room := s.sessions[sender].room;
    assert sender in s.rooms[room].members;
    assert fd in s.rooms[room].members <==> LoggedIn(s.sessions, fd) && s.sessions[fd].room == room;
  }

  /** What lets a chat line through. */
  predicate ChatPasses(
    sessions: map<int, Session>, fd: int, message: string, muted: bool, rateLimited: bool, filterPasses: bool)
  {
    LoggedIn(sessions, fd) && !muted && !rateLimited && message != "" && filterPasses && |message| <= MAX_MESSAGE_LEN
  }

  /** The fds a chat line is sent to, in order, are strictly ascending, so none is repeated; they are exactly the
      sessions logged in to the sender's room. */
  lemma ChatSentOnceToEach(home: string, db: Db, trace: seq<State>, events: seq<Event>, i: nat, sender: int)
    requires CanBoot(home, db) && Run(home, db, trace, events) && i < |trace|
    requires LoggedIn(trace[i].sessions, sender)
    ensures var s := trace[i];
      var sent := Sorted(Recipients(s, s.sessions[sender].room, -1));
      && Ascending(sent) && sender in sent
      && (forall fd :: fd in sent <==> LoggedIn(s.sessions, fd) && s.sessions[fd].room == s.sessions[sender].room)
  {
    var s := trace[i];
    var recipients := Recipients(s, s.sessions[sender].room, -1);
    SortedLists(recipients);
    forall fd
      ensures fd in recipients <==> LoggedIn(s.sessions, fd) && s.sessions[fd].room == s.sessions[sender].room
    {
      ChatReachesRoom(home, db, trace, events, i, sender, fd);
    }
  }

  // ----- A second login on one connection -----

  predicate SecondLoginFits(s: State, fd: int, nick: string)
    requires fd in s.sessions
  {
    var was := s.sessions[fd];
    && RoomToJoin(s, nick) == was.room
    && (nick == was.nick || was.nick !in s.nicknames || s.nicknames[was.nick] != fd)
  }

  /** Logging in again over a logged-in session keeps the indexes in agreement in exactly this case. */
  lemma SecondLoginExact(s: State, fd: int, nick: string)
    requires Inv(s) && LoggedIn(s.sessions, fd)
    ensures Indexed(EnterAs(s, fd, nick)) <==> SecondLoginFits(s, fd, nick)
  {
    var was, t := s.sessions[fd], EnterAs(s, fd, nick);
    assert fd in s.rooms[was.room].members;
    if RoomToJoin(s, nick) != was.room {
      assert fd in t.rooms[was.room].members && t.sessions[fd].room != was.room;
    } else if !SecondLoginFits(s, fd, nick) {
      assert was.nick in t.nicknames && t.sessions[t.nicknames[was.nick]].nick != was.nick;
    } else {
      SecondLoginFine(s, fd, nick);
    }
  }

  lemma SecondLoginFine(s: State, fd: int, nick: string)
    requires s.home != "" && Indexed(s) && LoggedIn(s.sessions, fd) && SecondLoginFits(s, fd, nick)
    ensures Indexed(EnterAs(s, fd, nick))
  {
    var t := EnterAs(s, fd, nick);
    forall r, f | r in t.rooms
      ensures f in t.rooms[r].members <==> LoggedIn(t.sessions, f) && t.sessions[f].room == r
    {
      assert f in s.rooms[r].members <==> LoggedIn(s.sessions, f) && s.sessions[f].room == r;
    }
  }

  // ----- Finding a session by its nickname -----

  /** Whoever is logged in can be found by nickname. */
  ghost predicate Findable(sessions: map<int, Session>, nicknames: map<string, int>) {
    forall fd | LoggedIn(sessions, fd) :: sessions[fd].nick in nicknames && nicknames[sessions[fd].nick] == fd
  }

  /** A reconnect under a nickname that is online. */
  predicate TakesOver(s: State, e: Event) {
    e.ReconnectSent? && e.fd in s.sessions && e.subject.Some? && e.subject.value in s.nicknames
  }

  lemma EnterFindable(s: State, fd: int, nick: string)
    requires NicksFine(s.sessions, s.nicknames) && Findable(s.sessions, s.nicknames)
    requires fd in s.sessions && !LoggedIn(s.sessions, fd)
    ensures Findable(EnterAs(s, fd, nick).sessions, EnterAs(s, fd, nick).nicknames) <==> nick !in s.nicknames
  {
    var t := EnterAs(s, fd, nick);
    if nick in s.nicknames {
      assert LoggedIn(t.sessions, s.nicknames[nick]);
    } else {
      forall f | LoggedIn(t.sessions, f)
        ensures t.sessions[f].nick in t.nicknames && t.nicknames[t.sessions[f].nick] == f
      {
        assert f == fd || LoggedIn(s.sessions, f);
      }
    }
  }

  lemma DisconnectFindable(s: State, fd: int)
    requires Findable(s.sessions, s.nicknames)
    ensures Findable(Disconnect(s, fd).sessions, Disconnect(s, fd).nicknames)
  {
    var t := Disconnect(s, fd);
    forall f | LoggedIn(t.sessions, f)
      ensures t.sessions[f].nick in t.nicknames && t.nicknames[t.sessions[f].nick] == f
    {
      assert LoggedIn(s.sessions, f);
    }
  }

  lemma LoginFindable(s: State, fd: int, nick: string, password: string, v: Verdict)
    requires NicksFine(s.sessions, s.nicknames) && Findable(s.sessions, s.nicknames) && !LoggedIn(s.sessions, fd)
    ensures var t := Login(s, fd, nick, password, v);
      Findable(t.sessions, t.nicknames)
  {
    DisconnectFindable(s, fd);
    var s1 := if nick in s.db.users then s else s.(db := s.db.(users := s.db.users[nick := UserRow(User, "")]));
    DisconnectFindable(s1, fd);
    if fd in s.sessions {
      EnterFindable(s1, fd, nick);
    }
  }

  /** Every step keeps everyone findable, except a reconnect that takes over a nickname in use. */
  lemma FindableExact(s: State, e: Event)
    requires NicksFine(s.sessions, s.nicknames) && Findable(s.sessions, s.nicknames) && Possible(s, e)
    ensures Findable(Step(s, e).sessions, Step(s, e).nicknames) <==> !TakesOver(s, e)
  {
    match e
    case LoginSent(fd, nick, password, v) => LoginFindable(s, fd, nick, password, v);
    case ReconnectSent(fd, subject) =>
      if fd in s.sessions && subject.Some? {
        EnterFindable(s, fd, subject.value);
      }
    case Disconnected(fd) => DisconnectFindable(s, fd);
    case Restarted =>
    case _ => OthersFindable(s, e);
  }

  lemma OthersFindable(s: State, e: Event)
    requires Possible(s, e) && Findable(s.sessions, s.nicknames)
    requires !e.LoginSent? && !e.ReconnectSent? && !e.Disconnected? && !e.Restarted?
    ensures Findable(Step(s, e).sessions, Step(s, e).nicknames)
  {
    SameNicks(s, e);
    var t := Step(s, e);
    forall f | LoggedIn(t.sessions, f)
      ensures t.sessions[f].nick in t.nicknames && t.nicknames[t.sessions[f].nick] == f
    {
      assert LoggedIn(s.sessions, f);
    }
  }

  lemma SameNicks(s: State, e: Event)
    requires !e.LoginSent? && !e.ReconnectSent? && !e.Disconnected? && !e.Restarted?
    requires Possible(s, e)
    ensures Step(s, e).nicknames == s.nicknames
    ensures forall f | LoggedIn(Step(s, e).sessions, f) ::
              LoggedIn(s.sessions, f) && s.sessions[f].nick == Step(s, e).sessions[f].nick
  {
  }

  // ----- Kicks and bans -----

  /** A join enters a room exactly if it exists, the password fits and the nickname is not banned from it. */
  lemma JoinExactly(s: State, fd: int, room: string, ok: bool)
    requires Inv(s) && LoggedIn(s.sessions, fd) && s.sessions[fd].room != room
    ensures Join(s, fd, room, ok).sessions[fd].room == room
       <==> room != "" && room in s.rooms && (s.rooms[room].hasPassword ==> ok) && s.sessions[fd].nick !in s.rooms[room].banned
  {
  }

  /** A kick, then leaving and logging in again. */
  function Relogin(s: State, fd: int, nick: string, password: string): State {
    Login(AcceptConn(Disconnect(s, fd), fd), fd, nick, password, Verdict(true, false, true, false))
  }

  /** The kicked user is back in the room, banned from it, exactly if it was the last room they joined. */
  lemma KickUndoneExactly(s: State, adminFd: int, nick: string, password: string)
    requires Inv(s) && MayKick(s, adminFd, nick) && ValidNick(nick) && password != ""
    ensures var fd := s.nicknames[nick];
      var room := s.sessions[fd].room;
      var t := Relogin(Kick(s, adminFd, nick), fd, nick, password);
      && LoggedIn(t.sessions, fd) && room in t.rooms && nick in t.rooms[room].banned
      && (t.sessions[fd].room == room <==> LastRoom(s.db, nick) == room)
      && (fd in t.rooms[room].members <==> LastRoom(s.db, nick) == room)
  {
    var fd := s.nicknames[nick];
    var room := s.sessions[fd].room;
    var s1 := Kick(s, adminFd, nick);
    KickIndexed(s, adminFd, nick);
    KickCached(s, adminFd, nick);
    KickedOut(s, adminFd, nick);
    BackIn(s1, fd, nick, password, room);
  }

  lemma KickedOut(s: State, adminFd: int, nick: string)
    requires Inv(s) && MayKick(s, adminFd, nick)
    ensures var t := Kick(s, adminFd, nick);
      var fd := s.nicknames[nick];
      var room := s.sessions[fd].room;
      && t.home == s.home && room != "" && room != s.home && nick in t.db.users
      && LastRoom(t.db, nick) == LastRoom(s.db, nick)
      && fd in t.sessions && t.sessions[fd].room == s.home && t.sessions[fd].authenticated && t.sessions[fd].nick == nick
      && room in t.rooms && nick in t.rooms[room].banned && fd !in t.rooms[room].members
  {
    assert LoggedIn(s.sessions, s.nicknames[nick]);
  }

  lemma BackIn(s: State, fd: int, nick: string, password: string, room: string)
    requires s.home in s.rooms && s.home != room && room != ""
    requires LoggedIn(s.sessions, fd) && s.sessions[fd].nick == nick && s.sessions[fd].room == s.home
    requires nick in s.db.users && ValidNick(nick) && password != ""
    requires room in s.rooms && nick in s.rooms[room].banned && fd !in s.rooms[room].members
    ensures var t := Relogin(s, fd, nick, password);
      && LoggedIn(t.sessions, fd) && room in t.rooms && nick in t.rooms[room].banned
      && (t.sessions[fd].room == room <==> LastRoom(s.db, nick) == room)
      && (fd in t.rooms[room].members <==> LastRoom(s.db, nick) == room)
  {
    var s2 := AcceptConn(Disconnect(s, fd), fd);
    assert nick !in s2.nicknames;
    assert Relogin(s, fd, nick, password) == EnterAs(s2, fd, nick);
  }
}
