/** Runs of the registry in which the rules that need a condition fail. */
module RegistryExamples {
  import opened Options
  import opened Registry

  /** Users who differ, a room apart from the default room, and fds that differ. */
  datatype Cast = Cast(home: string, admin: string, user: string, other: string, room: string, fd: int, fd2: int, password: string)

  predicate Suitable(c: Cast) {
    && c.home != "" && c.room != "" && c.room != c.home && c.password != ""
    && ValidNick(c.admin) && ValidNick(c.user) && ValidNick(c.other)
    && c.admin != c.user && c.other != c.user && c.other != c.admin
    && 0 <= c.fd && 0 <= c.fd2 && c.fd != c.fd2
  }

  const GOOD := Verdict(true, false, true, false)

  /** A database that knows an administrator and no rooms. */
  function Tables(c: Cast): Db {
    Db(map[c.admin := UserRow(Admin, "")], map[], {})
  }

  lemma TablesBoot(c: Cast)
    requires Suitable(c)
    ensures CanBoot(c.home, Tables(c))
    ensures Boot(c.home, Tables(c)).rooms == map[c.home := Room("system", {}, {}, false)]
  {
    var rooms := LoadRooms(c.home, Tables(c));
    assert rooms.Keys == {c.home} && |rooms| == |rooms.Keys|;
  }

  lemma OneMore(home: string, db: Db, trace: seq<State>, events: seq<Event>, e: Event)
    requires Run(home, db, trace, events) && Possible(trace[|events|], e)
    ensures Run(home, db, trace + [Step(trace[|events|], e)], events + [e])
  {
    var trace', events' := trace + [Step(trace[|events|], e)], events + [e];
    forall i | 0 <= i < |events'|
      ensures Possible(trace'[i], events'[i]) && trace'[i + 1] == Step(trace'[i], events'[i])
    {
      if i < |events| {
        assert Possible(trace[i], events[i]) && trace[i + 1] == Step(trace[i], events[i]);
      }
    }
  }

  /** One user logged in, in the default room. */
  function AtHome(c: Cast): State {
    State(c.home,
          map[c.fd := Session(c.user, c.home, true, User)],
          map[c.user := c.fd],
          map[c.home := Room("system", {c.fd}, {}, false)],
          Db(map[c.admin := UserRow(Admin, ""), c.user := UserRow(User, "")], map[], {}))
  }

  /** The user in a room they created. */
  function InRoom(c: Cast): State {
    State(c.home,
          map[c.fd := Session(c.user, c.room, true, User)],
          map[c.user := c.fd],
          map[c.home := Room("system", {}, {}, false), c.room := Room(c.user, {c.fd}, {}, false)],
          Db(map[c.admin := UserRow(Admin, ""), c.user := UserRow(User, c.room)], map[c.room := RoomRow(c.user, false)], {}))
  }

  lemma LoggingIn(c: Cast, s: State)
    requires Suitable(c) && s == AcceptConn(Boot(c.home, Tables(c)), c.fd)
    ensures Login(s, c.fd, c.user, c.password, GOOD) == AtHome(c)
  {
    TablesBoot(c);
    assert AddMember(s.rooms, c.home, c.fd) == AtHome(c).rooms;
  }

  function Created(c: Cast): State {
    AtHome(c).(rooms := map[c.home := Room("system", {c.fd}, {}, false), c.room := Room(c.user, {}, {}, false)],
               db := Db(map[c.admin := UserRow(Admin, ""), c.user := UserRow(User, "")],
                        map[c.room := RoomRow(c.user, false)], {}))
  }

  lemma Creating(c: Cast)
    requires Suitable(c)
    ensures Create(AtHome(c), c.fd, c.room, "", true) == Created(c)
  {
    var rooms := AtHome(c).rooms;
    assert rooms.Keys == {c.home};
    assert |rooms| == |rooms.Keys|;
    assert rooms[c.room := Room(c.user, {}, {}, false)] == Created(c).rooms;
  }

  lemma JoiningRooms(c: Cast)
    requires Suitable(c)
    ensures AddMember(DropMember(Created(c).rooms, c.home, c.fd), c.room, c.fd) == InRoom(c).rooms
  {
    var rooms, want := AddMember(DropMember(Created(c).rooms, c.home, c.fd), c.room, c.fd), InRoom(c).rooms;
    assert rooms.Keys == want.Keys;
    assert rooms[c.home].members == want[c.home].members;
    assert rooms[c.room].members == want[c.room].members;
  }

  lemma Joining(c: Cast)
    requires Suitable(c)
    ensures Join(Created(c), c.fd, c.room, true) == InRoom(c)
  {
    JoiningRooms(c);
    assert SetLastRoom(Created(c).db, c.user, c.room).users == InRoom(c).db.users;
  }

  function ToRoom(c: Cast): seq<Event> {
    [Accepted(c.fd), LoginSent(c.fd, c.user, c.password, GOOD), CreateSent(c.fd, c.room, ""), JoinSent(c.fd, c.room, true)]
  }

  lemma StepsToRoom(c: Cast)
    requires Suitable(c)
    ensures Goes(Boot(c.home, Tables(c)), Accepted(c.fd), AcceptConn(Boot(c.home, Tables(c)), c.fd))
    ensures Goes(AcceptConn(Boot(c.home, Tables(c)), c.fd), LoginSent(c.fd, c.user, c.password, GOOD), AtHome(c))
  {
    LoggingIn(c, AcceptConn(Boot(c.home, Tables(c)), c.fd));
  }

  lemma StepsInRoom(c: Cast)
    requires Suitable(c)
    ensures Goes(AtHome(c), CreateSent(c.fd, c.room, ""), Created(c))
    ensures Goes(Created(c), JoinSent(c.fd, c.room, true), InRoom(c))
  {
    Creating(c);
    Joining(c);
  }

  /** A run that leads there. */
  lemma RunToRoom(c: Cast) returns (trace: seq<State>)
    requires Suitable(c)
    ensures Run(c.home, Tables(c), trace, ToRoom(c)) && trace[4] == InRoom(c)
  {
    var s0 := Boot(c.home, Tables(c));
    var later := [AcceptConn(s0, c.fd), AtHome(c), Created(c), InRoom(c)];
    StepsToRoom(c);
    StepsInRoom(c);
    ChainedFour(Goes, [s0], [], later, ToRoom(c));
    trace := [s0] + later;
    assert [] + ToRoom(c) == ToRoom(c);
    RunIsChain(c.home, Tables(c), trace, ToRoom(c));
  }

  /** A second login over the same connection, as another user, leaves the fd a member of the room it is no longer in. */
  lemma SecondLoginLeavesMember(c: Cast) returns (trace: seq<State>)
    requires Suitable(c)
    ensures Run(c.home, Tables(c), trace, ToRoom(c))
    ensures var t := Login(trace[4], c.fd, c.other, c.password, GOOD);
      && LoggedIn(t.sessions, c.fd) && t.sessions[c.fd].room == c.home
      && c.room in t.rooms && c.fd in t.rooms[c.room].members
      && !Indexed(t)
  {
    trace := RunToRoom(c);
    var t := Login(trace[4], c.fd, c.other, c.password, GOOD);
    assert c.fd in t.rooms[c.room].members;
    assert t.sessions[c.fd].room != c.room;
  }

  /** A reconnect under the name of a user who is online: that user's session can no longer be found. */
  lemma ReconnectTakesOver(c: Cast) returns (trace: seq<State>, events: seq<Event>)
    requires Suitable(c)
    ensures Run(c.home, Tables(c), trace, events)
    ensures events == ToRoom(c) + [Accepted(c.fd2)] + [ReconnectSent(c.fd2, Some(c.user))]
    ensures var t := trace[6];
      && LoggedIn(t.sessions, c.fd) && t.sessions[c.fd].nick == c.user
      && c.user in t.nicknames && t.nicknames[c.user] == c.fd2
      && !Findable(t.sessions, t.nicknames)
  {
    trace := RunToRoom(c);
    OneMore(c.home, Tables(c), trace, ToRoom(c), Accepted(c.fd2));
    var s5 := AcceptConn(trace[4], c.fd2);
    OneMore(c.home, Tables(c), trace + [s5], ToRoom(c) + [Accepted(c.fd2)], ReconnectSent(c.fd2, Some(c.user)));
    var t := Reconnect(s5, c.fd2, Some(c.user));
    trace := trace + [s5] + [t];
    events := ToRoom(c) + [Accepted(c.fd2)] + [ReconnectSent(c.fd2, Some(c.user))];
    assert LoggedIn(t.sessions, c.fd) && t.nicknames[t.sessions[c.fd].nick] != c.fd;
  }

  /** The administrator has come in. */
  lemma AdminIn(c: Cast)
    requires Suitable(c)
    ensures var s := Login(AcceptConn(InRoom(c), c.fd2), c.fd2, c.admin, c.password, GOOD);
      KickIsNext(c, s)
  {
  }

  predicate KickIsNext(c: Cast, s: State) {
    && MayKick(s, c.fd2, c.user) && s.nicknames[c.user] == c.fd && c.fd in s.sessions
    && s.sessions[c.fd].room == c.room && LastRoom(s.db, c.user) == c.room
  }

  lemma RunToKick(c: Cast) returns (trace: seq<State>, events: seq<Event>)
    requires Suitable(c)
    ensures Run(c.home, Tables(c), trace, events)
    ensures events == ToRoom(c) + [Accepted(c.fd2)] + [LoginSent(c.fd2, c.admin, c.password, GOOD)]
    ensures KickIsNext(c, trace[6])
  {
    trace := RunToRoom(c);
    events := ToRoom(c);
    trace, events := Extend(c, trace, events, Accepted(c.fd2));
    trace, events := Extend(c, trace, events, LoginSent(c.fd2, c.admin, c.password, GOOD));
    AdminIn(c);
  }

  predicate Goes(s: State, e: Event, t: State) {
    Possible(s, e) && t == Step(s, e)
  }

  /** The kicked user is in the room, and banned from it. */
  predicate Returned(c: Cast, t: State) {
    && LoggedIn(t.sessions, c.fd) && t.sessions[c.fd].room == c.room
    && c.room in t.rooms && c.fd in t.rooms[c.room].members && c.user in t.rooms[c.room].banned
  }

  lemma KickAndLeave(c: Cast, s6: State)
    ensures var s7 := Kick(s6, c.fd2, c.user);
      Goes(s6, KickSent(c.fd2, c.user), s7) && Goes(s7, Disconnected(c.fd), Disconnect(s7, c.fd))
  {
  }

  lemma ComeBack(c: Cast, s7: State)
    requires Suitable(c) && c.fd in s7.sessions
    ensures var s8 := Disconnect(s7, c.fd);
      var s9 := AcceptConn(s8, c.fd);
      && Goes(s8, Accepted(c.fd), s9)
      && Goes(s9, LoginSent(c.fd, c.user, c.password, GOOD), Relogin(s7, c.fd, c.user, c.password))
  {
  }

  /** From there the kick, the disconnect and the way back. */
  lemma WayBack(c: Cast, s6: State) returns (s7: State, s8: State, s9: State, s10: State)
    requires Suitable(c) && Inv(s6) && KickIsNext(c, s6)
    ensures Goes(s6, KickSent(c.fd2, c.user), s7)
    ensures Goes(s7, Disconnected(c.fd), s8)
    ensures Goes(s8, Accepted(c.fd), s9)
    ensures Goes(s9, LoginSent(c.fd, c.user, c.password, GOOD), s10)
    ensures Returned(c, s10)
  {
    KickUndoneExactly(s6, c.fd2, c.user, c.password);
    KickedOut(s6, c.fd2, c.user);
    s7 := Kick(s6, c.fd2, c.user);
    KickAndLeave(c, s6);
    ComeBack(c, s7);
    s8 := Disconnect(s7, c.fd);
    s9 := AcceptConn(s8, c.fd);
    s10 := Relogin(s7, c.fd, c.user, c.password);
  }

  predicate Chain<S, E>(next: (S, E, S) -> bool, trace: seq<S>, events: seq<E>) {
    |trace| == |events| + 1 && forall i | 0 <= i < |events| :: next(trace[i], events[i], trace[i + 1])
  }

  lemma Chained<S, E>(next: (S, E, S) -> bool, trace: seq<S>, events: seq<E>, e: E, s: S)
    requires Chain(next, trace, events) && next(trace[|events|], e, s)
    ensures Chain(next, trace + [s], events + [e])
  {
    var trace', events' := trace + [s], events + [e];
    forall i | 0 <= i < |events'|
      ensures next(trace'[i], events'[i], trace'[i + 1])
    {
      if i < |events| {
        assert next(trace[i], events[i], trace[i + 1]);
      }
    }
  }

  lemma ChainedFour<S, E>(next: (S, E, S) -> bool, trace: seq<S>, events: seq<E>, s: seq<S>, e: seq<E>)
    requires |s| == |e| == 4 && Chain(next, trace, events) && next(trace[|events|], e[0], s[0])
    requires next(s[0], e[1], s[1]) && next(s[1], e[2], s[2]) && next(s[2], e[3], s[3])
    ensures Chain(next, trace + s, events + e)
  {
    Chained(next, trace, events, e[0], s[0]);
    Chained(next, trace + [s[0]], events + [e[0]], e[1], s[1]);
    Chained(next, trace + [s[0]] + [s[1]], events + [e[0]] + [e[1]], e[2], s[2]);
    Chained(next, trace + [s[0]] + [s[1]] + [s[2]], events + [e[0]] + [e[1]] + [e[2]], e[3], s[3]);
    assert trace + [s[0]] + [s[1]] + [s[2]] + [s[3]] == trace + s;
    assert events + [e[0]] + [e[1]] + [e[2]] + [e[3]] == events + e;
  }

  lemma RunIsChain(home: string, db: Db, trace: seq<State>, events: seq<Event>)
    requires trace != []
    ensures Run(home, db, trace, events) <==> Chain(Goes, trace, events) && trace[0] == Boot(home, db)
  {
    if Chain(Goes, trace, events) {
      forall i | 0 <= i < |events|
        ensures Possible(trace[i], events[i]) && trace[i + 1] == Step(trace[i], events[i])
      {
        assert Goes(trace[i], events[i], trace[i + 1]);
      }
    }
    if Run(home, db, trace, events) {
      forall i | 0 <= i < |events|
        ensures Goes(trace[i], events[i], trace[i + 1])
      {
        assert Possible(trace[i], events[i]) && trace[i + 1] == Step(trace[i], events[i]);
      }
    }
  }

  function KickAndBack(c: Cast): seq<Event> {
    [KickSent(c.fd2, c.user), Disconnected(c.fd), Accepted(c.fd), LoginSent(c.fd, c.user, c.password, GOOD)]
  }

  /** The run with a kick, a disconnect and a login: the kicked user is back in the room, banned from it. */
  lemma KickedUserReturns(c: Cast) returns (trace: seq<State>, events: seq<Event>)
    requires Suitable(c)
    ensures Run(c.home, Tables(c), trace, events)
    ensures events == ToRoom(c) + [Accepted(c.fd2)] + [LoginSent(c.fd2, c.admin, c.password, GOOD)] + KickAndBack(c)
    ensures Returned(c, trace[10])
  {
    trace, events := RunToKick(c);
    TablesBoot(c);
    InvHolds(c.home, Tables(c), trace, events, 6);
    var s7, s8, s9, s10 := WayBack(c, trace[6]);
    RunIsChain(c.home, Tables(c), trace, events);
    ChainedFour(Goes, trace, events, [s7, s8, s9, s10], KickAndBack(c));
    trace, events := trace + [s7, s8, s9, s10], events + KickAndBack(c);
    RunIsChain(c.home, Tables(c), trace, events);
  }

  lemma Extend(c: Cast, trace: seq<State>, events: seq<Event>, e: Event) returns (trace': seq<State>, events': seq<Event>)
    requires Run(c.home, Tables(c), trace, events) && Possible(trace[|events|], e)
    ensures Run(c.home, Tables(c), trace', events')
    ensures trace' == trace + [Step(trace[|events|], e)] && events' == events + [e]
  {
    trace', events' := trace + [Step(trace[|events|], e)], events + [e];
    OneMore(c.home, Tables(c), trace, events, e);
  }

  lemma NickOk(nick: string)
    requires 3 <= |nick| <= 32 && forall i | 0 <= i < |nick| :: NickChar(nick[i])
    ensures ValidNick(nick)
  {
  }

  /** There are such users and rooms. */
  lemma SomeCast() returns (c: Cast)
    ensures Suitable(c)
  {
    c := Cast("general", "root", "alice", "carol", "games", 3, 4, "secret");
    NickOk("root");
    NickOk("alice");
    NickOk("carol");
    assert c.admin[0] != c.user[0] && c.other[0] != c.user[0] && c.other[0] != c.admin[0];
    assert |c.room| != |c.home|;
  }
}
