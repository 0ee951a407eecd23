/**
 The chat history of the rooms: a short buffer per room in front of one table of rows shared by
 all rooms and kept across restarts.
 */
module ChatHistory {

  const BUFFER_SIZE: nat := 100

  datatype Kind = Chat | System | FileNotify

  function TypeToStr(k: Kind): string {
    match k
    case System => "SYSTEM"
    case FileNotify => "FILE_NOTIFY"
    case Chat => "CHAT"
  }

  function StrToType(s: string): Kind {
    if s == "SYSTEM" then System else if s == "FILE_NOTIFY" then FileNotify else Chat
  }

  datatype Entry = Entry(time: int, sender: string, room: string, message: string, kind: Kind)

  /** A row of the table; ids grow with every insert. */
  datatype Row = Row(id: nat, time: int, sender: string, room: string, message: string, kind: string)

  function ToRow(id: nat, e: Entry): Row {
    Row(id, e.time, e.sender, e.room, e.message, TypeToStr(e.kind))
  }

  function FromRow(r: Row): Entry {
    Entry(r.time, r.sender, r.room, r.message, StrToType(r.kind))
  }

  lemma RowRoundTrip(id: nat, e: Entry)
    ensures FromRow(ToRow(id, e)) == e
  {
  }

  // ----- Sequences -----

  function Last<T>(xs: seq<T>, n: nat): seq<T> {
    if n <= |xs| then xs[|xs| - n..] else xs
  }

  function Reverse<T>(xs: seq<T>): (r: seq<T>)
    ensures |r| == |xs|
  {
    if xs == [] then [] else [xs[|xs| - 1]] + Reverse(xs[..|xs| - 1])
  }

  function Entries(rows: seq<Row>): (r: seq<Entry>)
    ensures |r| == |rows|
  {
    if rows == [] then [] else Entries(rows[..|rows| - 1]) + [FromRow(rows[|rows| - 1])]
  }

  function RowsOf(table: seq<Row>, room: string): seq<Row> {
    if table == [] then []
    else
      var rest := RowsOf(table[..|table| - 1], room);
      if table[|table| - 1].room == room then rest + [table[|table| - 1]] else rest
  }

  // ----- ORDER BY timestamp DESC -----

  /** Newer first; of equal times the later row first, as the index on room and time is read backwards. */
  predicate Before(a: Row, b: Row) {
    a.time > b.time || (a.time == b.time && a.id > b.id)
  }

  function Insert(r: Row, rows: seq<Row>): seq<Row> {
    if rows == [] || Before(r, rows[0]) then [r] + rows else [rows[0]] + Insert(r, rows[1..])
  }

  function Newest(rows: seq<Row>): seq<Row> {
    if rows == [] then [] else Insert(rows[|rows| - 1], Newest(rows[..|rows| - 1]))
  }

  /** Each row before the next. */
  predicate Descends(rows: seq<Row>) {
    |rows| < 2 || (Before(rows[0], rows[1]) && Descends(rows[1..]))
  }

  predicate IdsBelow(rows: seq<Row>, id: nat) {
    rows == [] || (rows[0].id < id && IdsBelow(rows[1..], id))
  }

  ghost predicate IncreasingIds(rows: seq<Row>) {
    forall i, j | 0 <= i < j < |rows| :: rows[i].id < rows[j].id
  }

  lemma {:induction false} InsertDescends(r: Row, rows: seq<Row>)
    requires Descends(rows) && IdsBelow(rows, r.id)
    ensures Descends(Insert(r, rows)) && |Insert(r, rows)| == |rows| + 1
    ensures Insert(r, rows)[0] == r || (rows != [] && Insert(r, rows)[0] == rows[0])
    decreases |rows|
  {
    if rows == [] || Before(r, rows[0]) {
      assert ([r] + rows)[1..] == rows;
    } else {
      var later := Insert(r, rows[1..]);
      InsertDescends(r, rows[1..]);
      assert Before(rows[0], r);
      assert ([rows[0]] + later)[1..] == later;
    }
  }

  lemma {:induction false} InsertBelow(r: Row, rows: seq<Row>, id: nat)
    requires IdsBelow(rows, id) && r.id < id
    ensures IdsBelow(Insert(r, rows), id)
    decreases |rows|
  {
    if rows == [] || Before(r, rows[0]) {
      assert ([r] + rows)[1..] == rows;
    } else {
      InsertBelow(r, rows[1..], id);
      assert ([rows[0]] + Insert(r, rows[1..]))[1..] == Insert(r, rows[1..]);
    }
  }

  lemma {:induction false} BelowMore(rows: seq<Row>, id: nat, more: nat)
    requires IdsBelow(rows, id) && id <= more
    ensures IdsBelow(rows, more)
    decreases |rows|
  {
    if rows != [] {
      BelowMore(rows[1..], id, more);
    }
  }

  lemma {:induction false} InsertMultiset(r: Row, rows: seq<Row>)
    ensures multiset(Insert(r, rows)) == multiset(rows) + multiset{r}
    decreases |rows|
  {
    if rows != [] && !Before(r, rows[0]) {
      InsertMultiset(r, rows[1..]);
      assert rows == [rows[0]] + rows[1..];
    }
  }

  lemma {:induction false} NewestDescends(rows: seq<Row>)
    requires IncreasingIds(rows)
    ensures Descends(Newest(rows)) && |Newest(rows)| == |rows|
    ensures rows != [] ==> IdsBelow(Newest(rows), rows[|rows| - 1].id + 1)
    decreases |rows|
  {
    if rows != [] {
      var front, r := rows[..|rows| - 1], rows[|rows| - 1];
      NewestDescends(front);
      if front != [] {
        assert rows[|front| - 1].id < rows[|front|].id;
        BelowMore(Newest(front), front[|front| - 1].id + 1, r.id);
        BelowMore(Newest(front), r.id, r.id + 1);
      }
      InsertDescends(r, Newest(front));
      InsertBelow(r, Newest(front), r.id + 1);
    }
  }

  lemma {:induction false} NewestMultiset(rows: seq<Row>)
    ensures multiset(Newest(rows)) == multiset(rows)
    decreases |rows|
  {
    if rows != [] {
      var front, r := rows[..|rows| - 1], rows[|rows| - 1];
      NewestMultiset(front);
      InsertMultiset(r, Newest(front));
      assert rows == front + [r];
    }
  }

  lemma {:induction false} HeadBefore(rows: seq<Row>, j: nat)
    requires Descends(rows) && 0 < j < |rows|
    ensures Before(rows[0], rows[j])
    decreases |rows|
  {
    if j > 1 {
      HeadBefore(rows[1..], j - 1);
    }
  }

  lemma {:induction false} DescendsPairwise(rows: seq<Row>, i: nat, j: nat)
    requires Descends(rows) && i < j < |rows|
    ensures Before(rows[i], rows[j])
    decreases |rows|
  {
    if i == 0 {
      HeadBefore(rows, j);
    } else {
      DescendsPairwise(rows[1..], i - 1, j - 1);
    }
  }

  /** The query's order: all rows, each before every later one. */
  lemma NewestOrdered(rows: seq<Row>)
    requires IncreasingIds(rows)
    ensures multiset(Newest(rows)) == multiset(rows)
    ensures forall i, j | 0 <= i < j < |Newest(rows)| :: Before(Newest(rows)[i], Newest(rows)[j])
  {
    NewestDescends(rows);
    NewestMultiset(rows);
    var newest := Newest(rows);
    forall i, j | 0 <= i < j < |newest|
      ensures Before(newest[i], newest[j])
    {
      DescendsPairwise(newest, i, j);
    }
  }

  /** SELECT ... ORDER BY timestamp DESC LIMIT n, then reversed. */
  function Loaded(rows: seq<Row>, n: nat): seq<Entry> {
    Reverse(Entries(Limit(Newest(rows), n)))
  }

  function Limit<T>(xs: seq<T>, n: nat): seq<T> {
    if n <= |xs| then xs[..n] else xs
  }

  // ----- When the clock does not go back -----

  ghost predicate Nondecreasing(entries: seq<Entry>) {
    forall i, j | 0 <= i < j < |entries| :: entries[i].time <= entries[j].time
  }

  lemma {:induction false} NewestIsReverse(rows: seq<Row>)
    requires IncreasingIds(rows) && Nondecreasing(Entries(rows))
    ensures Newest(rows) == Reverse(rows)
    decreases |rows|
  {
    if rows != [] {
      var front, r := rows[..|rows| - 1], rows[|rows| - 1];
      NondecreasingFront(Entries(front), FromRow(r));
      NewestIsReverse(front);
      if front != [] {
        assert Entries(front)[|front| - 1] == FromRow(front[|front| - 1]);
        assert Before(r, Newest(front)[0]);
      }
    }
  }

  lemma NondecreasingFront(front: seq<Entry>, e: Entry)
    requires Nondecreasing(front + [e])
    ensures Nondecreasing(front) && (front != [] ==> front[|front| - 1].time <= e.time)
  {
    var all := front + [e];
    forall i, j | 0 <= i < j < |front|
      ensures front[i].time <= front[j].time
    {
      assert all[i].time <= all[j].time;
    }
    assert front != [] ==> all[|front| - 1].time <= all[|front|].time;
  }

  lemma {:induction false} ReverseCons<T>(x: T, xs: seq<T>)
    ensures Reverse([x] + xs) == Reverse(xs) + [x]
    decreases |xs|
  {
    if xs != [] {
      assert ([x] + xs)[..|xs|] == [x] + xs[..|xs| - 1];
      ReverseCons(x, xs[..|xs| - 1]);
    }
  }

  lemma {:induction false} EntriesCons(r: Row, rows: seq<Row>)
    ensures Entries([r] + rows) == [FromRow(r)] + Entries(rows)
    decreases |rows|
  {
    if rows != [] {
      assert ([r] + rows)[..|rows|] == [r] + rows[..|rows| - 1];
      EntriesCons(r, rows[..|rows| - 1]);
    }
  }

  lemma LastCons<T>(xs: seq<T>, x: T, n: nat)
    requires n > 0
    ensures Last(xs + [x], n) == Last(xs, n - 1) + [x]
  {
  }

  lemma LimitCons<T>(x: T, xs: seq<T>, n: nat)
    requires n > 0
    ensures Limit([x] + xs, n) == [x] + Limit(xs, n - 1)
  {
  }

  lemma {:induction false} LimitOfReverse(rows: seq<Row>, n: nat)
    ensures Reverse(Entries(Limit(Reverse(rows), n))) == Last(Entries(rows), n)
    decreases |rows|
  {
    if rows != [] && n > 0 {
      var front, r := rows[..|rows| - 1], rows[|rows| - 1];
      var back := Limit(Reverse(front), n - 1);
      LimitCons(r, Reverse(front), n);
      EntriesCons(r, back);
      ReverseCons(FromRow(r), Entries(back));
      LimitOfReverse(front, n - 1);
      LastCons(Entries(front), FromRow(r), n);
    }
  }

  /** The database returns the tail of the room's log. */
  lemma LoadsTail(rows: seq<Row>, n: nat)
    requires IncreasingIds(rows) && Nondecreasing(Entries(rows))
    ensures Loaded(rows, n) == Last(Entries(rows), n)
  {
    NewestIsReverse(rows);
    LimitOfReverse(rows, n);
  }

  lemma NondecreasingSnoc(entries: seq<Entry>, e: Entry)
    requires Nondecreasing(entries) && (entries != [] ==> entries[|entries| - 1].time <= e.time)
    ensures Nondecreasing(entries + [e])
  {
    var all := entries + [e];
    forall i, j | 0 <= i < j < |all|
      ensures all[i].time <= all[j].time
    {
      assert j == |entries| && i < j - 1 ==> entries[i].time <= entries[j - 1].time;
    }
  }

  /** Rows newest first, turned around, are oldest first. */
  lemma {:induction false} ReversedOrdered(newest: seq<Row>)
    requires Descends(newest)
    ensures Nondecreasing(Reverse(Entries(newest)))
    ensures newest != [] ==> Reverse(Entries(newest))[|newest| - 1] == FromRow(newest[0])
    decreases |newest|
  {
    if newest != [] {
      var r, rest := newest[0], newest[1..];
      var back := Reverse(Entries(rest));
      assert newest == [r] + rest;
      EntriesCons(r, rest);
      ReverseCons(FromRow(r), Entries(rest));
      ReversedOrdered(rest);
      NondecreasingSnoc(back, FromRow(r));
    }
  }

  lemma TailMeansOrdered(rows: seq<Row>)
    requires IncreasingIds(rows) && Loaded(rows, |rows|) == Entries(rows)
    ensures Nondecreasing(Entries(rows))
  {
    var newest := Newest(rows);
    NewestDescends(rows);
    LimitWhole(newest);
    ReversedOrdered(newest);
    SameTimes(Reverse(Entries(newest)), Entries(rows));
  }

  lemma LimitWhole<T>(xs: seq<T>)
    ensures Limit(xs, |xs|) == xs
  {
  }

  lemma SameTimes(a: seq<Entry>, b: seq<Entry>)
    requires a == b && Nondecreasing(a)
    ensures Nondecreasing(b)
  {
  }

  /** The database returns the tail of a room's rows for every n exactly if their times never go back. */
  lemma LoadsTailExactly(rows: seq<Row>)
    requires IncreasingIds(rows)
    ensures (forall n: nat :: Loaded(rows, n) == Last(Entries(rows), n)) <==> Nondecreasing(Entries(rows))
  {
    if Nondecreasing(Entries(rows)) {
      forall n: nat
        ensures Loaded(rows, n) == Last(Entries(rows), n)
      {
        LoadsTail(rows, n);
      }
    } else if Loaded(rows, |rows|) == Last(Entries(rows), |rows|) {
      TailMeansOrdered(rows);
    }
  }

  // ----- Appending, restarting and reading back -----

  /** The buffers of the rooms and the table. */
  datatype State = State(buffers: map<string, seq<Entry>>, table: seq<Row>)

  datatype Event = Appended(entry: Entry) | Restarted

  function Buffer(s: State, room: string): seq<Entry> {
    if room in s.buffers then s.buffers[room] else []
  }

  function Remember(s: State, e: Entry): State {
    State(s.buffers[e.room := Last(Buffer(s, e.room) + [e], BUFFER_SIZE)], s.table + [ToRow(|s.table|, e)])
  }

  function Recent(s: State, room: string, n: nat): seq<Entry> {
    if |Buffer(s, room)| >= n then Last(Buffer(s, room), n) else Loaded(RowsOf(s.table, room), n)
  }

  function After(events: seq<Event>): State {
    if events == [] then State(map[], [])
    else
      var s := After(events[..|events| - 1]);
      match events[|events| - 1]
      case Appended(e) => Remember(s, e)
      case Restarted => s.(buffers := map[])
  }

  /** What was said in a room. */
  function Log(events: seq<Event>, room: string): seq<Entry> {
    if events == [] then []
    else
      var log := Log(events[..|events| - 1], room);
      match events[|events| - 1]
      case Appended(e) => if e.room == room then log + [e] else log
      case Restarted => log
  }

  lemma {:induction false} TableIsLog(events: seq<Event>, room: string)
    ensures Entries(RowsOf(After(events).table, room)) == Log(events, room)
    decreases |events|
  {
    if events != [] {
      var before, last := events[..|events| - 1], events[|events| - 1];
      TableIsLog(before, room);
      if last.Appended? {
        var table := After(before).table;
        var row := ToRow(|table|, last.entry);
        assert (table + [row])[..|table|] == table;
        RowRoundTrip(|table|, last.entry);
      }
    }
  }

  lemma {:induction false} IdsGrow(table: seq<Row>, room: string)
    requires forall i | 0 <= i < |table| :: table[i].id == i
    ensures IncreasingIds(RowsOf(table, room))
    ensures forall r | r in RowsOf(table, room) :: r.id < |table|
    decreases |table|
  {
    if table != [] {
      IdsGrow(table[..|table| - 1], room);
    }
  }

  lemma {:induction false} IdsArePositions(events: seq<Event>)
    ensures forall i | 0 <= i < |After(events).table| :: After(events).table[i].id == i
    decreases |events|
  {
    if events != [] {
      IdsArePositions(events[..|events| - 1]);
    }
  }

  lemma LastOfAppended<T>(log: seq<T>, k: nat, e: T)
    requires k <= |log|
    ensures Last(Last(log, k) + [e], BUFFER_SIZE) == Last(log + [e], if k + 1 <= BUFFER_SIZE then k + 1 else BUFFER_SIZE)
  {
  }

  lemma {:induction false} BufferIsTail(events: seq<Event>, room: string)
    ensures var b := Buffer(After(events), room);
      |b| <= BUFFER_SIZE && |b| <= |Log(events, room)| && b == Last(Log(events, room), |b|)
    decreases |events|
  {
    if events != [] {
      var before, last := events[..|events| - 1], events[|events| - 1];
      BufferIsTail(before, room);
      if last.Appended? && last.entry.room == room {
        LastOfAppended(Log(before, room), |Buffer(After(before), room)|, last.entry);
      }
    }
  }

  /** The table holds what was said in a room, and the buffer the end of it. */
  ghost predicate Faithful(s: State, room: string, log: seq<Entry>) {
    && IncreasingIds(RowsOf(s.table, room))
    && Entries(RowsOf(s.table, room)) == log
    && |Buffer(s, room)| <= |log|
    && Buffer(s, room) == Last(log, |Buffer(s, room)|)
  }

  lemma RunFaithful(events: seq<Event>, room: string)
    ensures Faithful(After(events), room, Log(events, room))
  {
    TableIsLog(events, room);
    IdsArePositions(events);
    IdsGrow(After(events).table, room);
    BufferIsTail(events, room);
  }

  lemma TailIfOrdered(s: State, room: string, log: seq<Entry>, n: nat)
    requires Faithful(s, room, log) && Nondecreasing(log)
    ensures Recent(s, room, n) == Last(log, n)
  {
    if |Buffer(s, room)| < n {
      LoadsTail(RowsOf(s.table, room), n);
    }
  }

  lemma OrderedIfTail(s: State, room: string, log: seq<Entry>)
    requires Faithful(s, room, log) && Recent(s, room, |log| + 1) == log
    ensures Nondecreasing(log)
  {
    var rows := RowsOf(s.table, room);
    NewestDescends(rows);
    assert Limit(Newest(rows), |rows| + 1) == Limit(Newest(rows), |rows|);
    TailMeansOrdered(rows);
  }

  /** Asked for n entries, the history gives the last n that were said. */
  ghost predicate RightForAll(s: State, room: string, log: seq<Entry>) {
    forall n: nat :: Recent(s, room, n) == Last(log, n)
  }

  /** After any appends and restarts the history is right for every n, exactly if times never went back. */
  lemma RecentIsTailExactly(events: seq<Event>, room: string)
    ensures RightForAll(After(events), room, Log(events, room)) <==> Nondecreasing(Log(events, room))
  {
    RunFaithful(events, room);
    TailExactly(After(events), room, Log(events, room));
  }

  lemma TailExactly(s: State, room: string, log: seq<Entry>)
    requires Faithful(s, room, log)
    ensures RightForAll(s, room, log) <==> Nondecreasing(log)
  {
    if Nondecreasing(log) {
      forall n: nat
        ensures Recent(s, room, n) == Last(log, n)
      {
        TailIfOrdered(s, room, log, n);
      }
    }
    if RightForAll(s, room, log) {
      assert Recent(s, room, |log| + 1) == Last(log, |log| + 1);
      OrderedIfTail(s, room, log);
    }
  }

  /** Two entries with falling times, read back after a restart, come out the other way round. */
  lemma FallingTimesSwap(first: Entry, second: Entry)
    requires first.room == second.room && first.time > second.time
    ensures var events := [Appended(first), Appended(second), Restarted];
      && Log(events, first.room) == [first, second]
      && Recent(After(events), first.room, 2) == [second, first]
      && !RightForAll(After(events), first.room, [first, second])
  {
    var events, room := [Appended(first), Appended(second), Restarted], first.room;
    assert events[..2] == [Appended(first), Appended(second)];
    assert events[..2][..1] == [Appended(first)];
    assert [Appended(first)][..0] == [];
    var r1, r2 := ToRow(0, first), ToRow(1, second);
    assert After([Appended(first)]).table == [r1];
    assert After(events).table == [r1, r2];
    assert Log([Appended(first)], room) == [first] && Log(events, room) == [first, second];
    TwoRows(r1, r2, room);
    RowRoundTrip(0, first);
    RowRoundTrip(1, second);
    assert Recent(After(events), room, 2) != Last([first, second], 2);
  }

  lemma TwoRows(r1: Row, r2: Row, room: string)
    requires r1.room == room && r2.room == room && r1.time > r2.time
    ensures Loaded(RowsOf([r1, r2], room), 2) == [FromRow(r2), FromRow(r1)]
  {
    assert [r1, r2][..1] == [r1] && [r1][..0] == [];
    assert RowsOf([r1], room) == [r1] && RowsOf([r1, r2], room) == [r1, r2];
    assert Newest([r1]) == [r1];
    assert Insert(r2, [r1]) == [r1] + Insert(r2, []);
    assert Newest([r1, r2]) == [r1, r2];
    assert Limit([r1, r2], 2) == [r1, r2];
    assert Entries([r1]) == [FromRow(r1)] && Entries([r1, r2]) == [FromRow(r1), FromRow(r2)];
    var es := [FromRow(r1), FromRow(r2)];
    assert es[..1] == [FromRow(r1)];
    assert Reverse([FromRow(r1)]) == [FromRow(r1)];
    assert Reverse(es) == [FromRow(r2), FromRow(r1)];
  }

  // ----- The objects -----

  /** The table, shared by all rooms. */
  class Database {
    var table: seq<Row>
  }

  class RoomHistory {
    const room: string
    const db: Database
    var buffer: seq<Entry>

    constructor (room: string, db: Database)
      ensures this.room == room && this.db == db && buffer == []
    {
      this.room := room;
      this.db := db;
      buffer := [];
    }

    method PersistEntry(entry: Entry)
      modifies db
      ensures db.table == old(db.table) + [ToRow(|old(db.table)|, entry)]
    {
      db.table := db.table + [ToRow(|db.table|, entry)];
    }

    /** RoomManager appends an entry to the history of the entry's own room. */
    method Append(entry: Entry)
      requires entry.room == room
      modifies `buffer, db
      ensures buffer == Last(old(buffer) + [entry], BUFFER_SIZE)
      ensures db.table == old(db.table) + [ToRow(|old(db.table)|, entry)]
    {
      ghost var all := buffer + [entry];
      buffer := buffer + [entry];
      while |buffer| > BUFFER_SIZE
        invariant BUFFER_SIZE <= |all| ==> |buffer| >= BUFFER_SIZE
        invariant |buffer| <= |all| && buffer == all[|all| - |buffer|..]
        invariant |all| < BUFFER_SIZE ==> buffer == all
        invariant db.table == old(db.table)
      {
        buffer := buffer[1..];
      }
      PersistEntry(entry);
    }

    /** Steps through the result rows, newest first, and turns the list around. */
    method LoadFromDb(n: nat) returns (result: seq<Entry>)
      ensures result == Loaded(RowsOf(db.table, room), n)
    {
      var rows := Limit(Newest(RowsOf(db.table, room)), n);
      result := [];
      var i := 0;
      while i < |rows|
        invariant 0 <= i <= |rows|
        invariant result == Entries(rows[..i])
      {
        assert rows[..i + 1][..i] == rows[..i];
        result := result + [FromRow(rows[i])];
        i := i + 1;
      }
      assert rows[..i] == rows;
      result := Reverse(result);
    }

    method GetRecent(n: nat) returns (result: seq<Entry>)
      ensures result == Recent(State(map[room := buffer], db.table), room, n)
    {
      if |buffer| >= n {
        result := buffer[|buffer| - n..];
      } else {
        result := LoadFromDb(n);
      }
    }
  }
}
