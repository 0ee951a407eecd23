/**
 The audit log: events chained by hashes, collected in a buffer, written to a table in batches,
 and the check of the chain over the table.
 */
module AuditChain {

  const GENESIS := "GENESIS"
  const FLUSH_AT: nat := 100

  /** What an event says; the hash function sees all of it and the previous hash. */
  datatype Facts = Facts(
    id: string, time: int, kind: string, actor: string, target: string, action: string, result: string,
    ip: string, details: string)

  datatype Event = Event(facts: Facts, prevHash: string, hash: string)

  type Hash = (Facts, string) -> string

  datatype State = State(prevHash: string, buffer: seq<Event>, rows: seq<Event>)

  // ----- Logging and flushing -----

  function Flush(s: State): State {
    s.(buffer := [], rows := s.rows + s.buffer)
  }

  function Push(hash: Hash, s: State, facts: Facts): State {
    var e := Event(facts, s.prevHash, hash(facts, s.prevHash));
    s.(prevHash := e.hash, buffer := s.buffer + [e])
  }

  function Log(hash: Hash, s: State, facts: Facts): State {
    var next := Push(hash, s, facts);
    if |next.buffer| >= FLUSH_AT then Flush(next) else next
  }

  datatype Op = Logs(facts: Facts) | Flushes

  function Start(rows: seq<Event>): State {
    State(GENESIS, [], rows)
  }

  function Do(hash: Hash, s: State, op: Op): State {
    if op.Logs? then Log(hash, s, op.facts) else Flush(s)
  }

  function After(hash: Hash, s: State, ops: seq<Op>): State
    decreases |ops|
  {
    if ops == [] then s else Do(hash, After(hash, s, ops[..|ops| - 1]), ops[|ops| - 1])
  }

  function LoggedBy(op: Op): seq<Facts> {
    if op.Logs? then [op.facts] else []
  }

  function Logged(ops: seq<Op>): seq<Facts> {
    if ops == [] then [] else Logged(ops[..|ops| - 1]) + LoggedBy(ops[|ops| - 1])
  }

  // ----- Chains -----

  /** The chain of some facts from a hash on. */
  function Chain(hash: Hash, prev: string, facts: seq<Facts>): seq<Event>
    decreases |facts|
  {
    if facts == [] then []
    else
      var e := Event(facts[0], prev, hash(facts[0], prev));
      [e] + Chain(hash, e.hash, facts[1..])
  }

  /** Each row names the hash of the one before it, the first the given one. */
  predicate Linked(rows: seq<Event>, prev: string) {
    rows == [] || (rows[0].prevHash == prev && Linked(rows[1..], rows[0].hash))
  }

  /** The hash the row at this position has to name. */
  function Expected(rows: seq<Event>, prev: string, i: nat): string
    requires i <= |rows|
  {
    if i == 0 then prev else rows[i - 1].hash
  }

  lemma {:induction false} LinkedAt(rows: seq<Event>, prev: string, i: nat)
    requires Linked(rows, prev) && i < |rows|
    ensures rows[i].prevHash == Expected(rows, prev, i)
    decreases i
  {
    if i > 0 {
      LinkedAt(rows[1..], rows[0].hash, i - 1);
    }
  }

  lemma {:induction false} LinkedConcat(a: seq<Event>, b: seq<Event>, prev: string)
    ensures Linked(a + b, prev) <==> Linked(a, prev) && Linked(b, Expected(a, prev, |a|))
    decreases |a|
  {
    if a == [] {
      assert a + b == b;
    } else {
      assert (a + b)[1..] == a[1..] + b;
      LinkedConcat(a[1..], b, a[0].hash);
    }
  }

  // ----- The object -----

  class AuditLogger {
    const hash: Hash
    var prevHash: string
    var buffer: seq<Event>
    var rows: seq<Event>
    var isOpen: bool

    constructor (hash: Hash, rows: seq<Event>, isOpen: bool)
      ensures this.hash == hash && this.isOpen == isOpen && Value() == Start(rows)
    {
      this.hash := hash;
      this.rows := rows;
      this.isOpen := isOpen;
      prevHash := GENESIS;
      buffer := [];
    }

    ghost function Value(): State
      reads this
    {
      State(prevHash, buffer, rows)
    }

    method FlushBuffer()
      modifies `buffer, `rows
      ensures Value() == if isOpen then Flush(old(Value())) else old(Value())
    {
      if !isOpen || buffer == [] {
        assert rows + [] == rows;
        return;
      }
      var i := 0;
      while i < |buffer|
        invariant 0 <= i <= |buffer| && buffer == old(buffer)
        invariant rows == old(rows) + buffer[..i]
      {
        rows := rows + [buffer[i]];
        i := i + 1;
      }
      assert buffer[..i] == buffer;
      buffer := [];
    }

    method LogEvent(facts: Facts)
      modifies `prevHash, `buffer, `rows
      ensures Value() == if isOpen then Log(hash, old(Value()), facts) else Push(hash, old(Value()), facts)
    {
      var e := Event(facts, prevHash, hash(facts, prevHash));
      prevHash := e.hash;
      buffer := buffer + [e];
      if |buffer| >= FLUSH_AT {
        FlushBuffer();
      }
    }

    /** Follows the links from GENESIS and stops at the first that is broken. */
    method VerifyChain() returns (ok: bool)
      ensures ok <==> isOpen && Linked(rows, GENESIS)
    {
      if !isOpen {
        return false;
      }
      var prev := GENESIS;
      ok := true;
      var i := 0;
      assert rows[0..] == rows;
      while i < |rows|
        invariant 0 <= i <= |rows|
        invariant Linked(rows, GENESIS) <==> Linked(rows[i..], prev)
      {
        assert rows[i..][1..] == rows[i + 1..];
        if rows[i].prevHash != prev {
          ok := false;
          return;
        }
        prev := rows[i].hash;
        i := i + 1;
      }
    }
  }

  // ----- What is logged is what is kept -----

  lemma {:induction false} ChainExtends(hash: Hash, prev: string, facts: seq<Facts>, more: Facts)
    ensures var chain := Chain(hash, prev, facts);
      var last := if chain == [] then prev else chain[|chain| - 1].hash;
      Chain(hash, prev, facts + [more]) == chain + [Event(more, last, hash(more, last))]
    decreases |facts|
  {
    if facts == [] {
      assert facts + [more] == [more];
    } else {
      var e := Event(facts[0], prev, hash(facts[0], prev));
      assert (facts + [more])[1..] == facts[1..] + [more];
      ChainExtends(hash, e.hash, facts[1..], more);
      assert Chain(hash, prev, facts + [more]) == [e] + Chain(hash, e.hash, facts[1..] + [more]);
    }
  }

  /** The state holds, after some earlier rows, the chain of these facts. */
  ghost predicate Holds(hash: Hash, s: State, earlier: seq<Event>, facts: seq<Facts>) {
    var chain := Chain(hash, GENESIS, facts);
    && s.rows + s.buffer == earlier + chain
    && |earlier| <= |s.rows|
    && s.prevHash == if chain == [] then GENESIS else chain[|chain| - 1].hash
  }

  lemma LogHolds(hash: Hash, s: State, earlier: seq<Event>, facts: seq<Facts>, more: Facts)
    requires Holds(hash, s, earlier, facts)
    ensures Holds(hash, Log(hash, s, more), earlier, facts + [more])
  {
    ChainExtends(hash, GENESIS, facts, more);
    var e := Event(more, s.prevHash, hash(more, s.prevHash));
    assert s.rows + (s.buffer + [e]) == (s.rows + s.buffer) + [e];
    assert (earlier + Chain(hash, GENESIS, facts)) + [e] == earlier + (Chain(hash, GENESIS, facts) + [e]);
  }

  lemma FlushHolds(hash: Hash, s: State, earlier: seq<Event>, facts: seq<Facts>)
    requires Holds(hash, s, earlier, facts)
    ensures Holds(hash, Flush(s), earlier, facts)
  {
    assert s.rows + s.buffer + [] == s.rows + s.buffer;
  }

  lemma DoHolds(hash: Hash, s: State, op: Op, earlier: seq<Event>, facts: seq<Facts>)
    requires Holds(hash, s, earlier, facts)
    ensures Holds(hash, Do(hash, s, op), earlier, facts + LoggedBy(op))
  {
    if op.Logs? {
      LogHolds(hash, s, earlier, facts, op.facts);
    } else {
      FlushHolds(hash, s, earlier, facts);
      assert facts + [] == facts;
    }
  }

  lemma {:induction false} OpsHold(hash: Hash, s: State, ops: seq<Op>, earlier: seq<Event>)
    requires Holds(hash, s, earlier, [])
    ensures Holds(hash, After(hash, s, ops), earlier, Logged(ops))
    decreases |ops|
  {
    if ops != [] {
      var before := ops[..|ops| - 1];
      OpsHold(hash, s, before, earlier);
      DoHolds(hash, After(hash, s, before), ops[|ops| - 1], earlier, Logged(before));
    }
  }

  /** Rows and buffer together are what this process logged, in order and chained, behind the rows it found. */
  lemma NothingLost(hash: Hash, found: seq<Event>, ops: seq<Op>)
    ensures var s := After(hash, Start(found), ops);
      s.rows + s.buffer == found + Chain(hash, GENESIS, Logged(ops)) && |found| <= |s.rows|
  {
    assert Holds(hash, Start(found), found, []);
    OpsHold(hash, Start(found), ops, found);
  }

  lemma {:induction false} ChainSays(hash: Hash, prev: string, facts: seq<Facts>)
    ensures |Chain(hash, prev, facts)| == |facts| && Linked(Chain(hash, prev, facts), prev)
    ensures forall i | 0 <= i < |facts| :: Chain(hash, prev, facts)[i].facts == facts[i]
    decreases |facts|
  {
    if facts != [] {
      ChainSays(hash, hash(facts[0], prev), facts[1..]);
    }
  }

  /** Within one process on an empty table the check accepts the rows at every moment. */
  lemma ChainAccepted(hash: Hash, ops: seq<Op>)
    ensures var s := After(hash, Start([]), ops);
      && Linked(s.rows, GENESIS)
      && s.rows <= Chain(hash, GENESIS, Logged(ops))
  {
    NothingLost(hash, [], ops);
    ChainSays(hash, GENESIS, Logged(ops));
    var s, chain := After(hash, Start([]), ops), Chain(hash, GENESIS, Logged(ops));
    assert [] + chain == chain;
    LinkedConcat(s.rows, s.buffer, GENESIS);
  }

  // ----- What the check rules out -----

  ghost predicate DistinctHashes(rows: seq<Event>) {
    && (forall i | 0 <= i < |rows| :: rows[i].hash != GENESIS)
    && (forall i, j | 0 <= i < j < |rows| :: rows[i].hash != rows[j].hash)
  }

  /** Only one row of the log can follow a given part of it. */
  lemma FollowerIsNext(chain: seq<Event>, k: nat, i: nat)
    requires DistinctHashes(chain) && i <= |chain| && k <= |chain|
    requires Expected(chain, GENESIS, k) == Expected(chain, GENESIS, i)
    ensures i == k
  {
    if i < k {
      ExpectedDiffer(chain, i, k);
    } else if k < i {
      ExpectedDiffer(chain, k, i);
    }
  }

  lemma ExpectedDiffer(chain: seq<Event>, i: nat, k: nat)
    requires DistinctHashes(chain) && i < k <= |chain|
    ensures Expected(chain, GENESIS, i) != Expected(chain, GENESIS, k)
  {
    assert i > 0 ==> chain[i - 1].hash != chain[k - 1].hash;
  }

  predicate Within(positions: seq<nat>, n: nat) {
    forall i | 0 <= i < |positions| :: positions[i] < n
  }

  /** Rows drawn from the log by their positions: some may be left out, repeated or moved. */
  function Drawn(chain: seq<Event>, positions: seq<nat>): (rows: seq<Event>)
    requires Within(positions, |chain|)
    ensures |rows| == |positions|
  {
    if positions == [] then [] else [chain[positions[0]]] + Drawn(chain, positions[1..])
  }

  predicate Consecutive(positions: seq<nat>, k: nat) {
    positions == [] || (positions[0] == k && Consecutive(positions[1..], k + 1))
  }

  /** Rows that link on to the first k rows of the log are the next ones. */
  lemma {:induction false} DrawnInOrder(chain: seq<Event>, positions: seq<nat>, k: nat)
    requires Within(positions, |chain|) && k <= |chain|
    requires Linked(chain, GENESIS) && DistinctHashes(chain)
    requires Linked(Drawn(chain, positions), Expected(chain, GENESIS, k))
    ensures Consecutive(positions, k)
    decreases |positions|
  {
    if positions != [] {
      FirstDrawn(chain, positions, k);
      DrawnInOrder(chain, positions[1..], k + 1);
    }
  }

  lemma FirstDrawn(chain: seq<Event>, positions: seq<nat>, k: nat)
    requires Within(positions, |chain|) && k <= |chain| && positions != []
    requires Linked(chain, GENESIS) && DistinctHashes(chain)
    requires Linked(Drawn(chain, positions), Expected(chain, GENESIS, k))
    ensures positions[0] == k
    ensures Linked(Drawn(chain, positions[1..]), Expected(chain, GENESIS, k + 1))
  {
    LinkedAt(chain, GENESIS, positions[0]);
    assert Drawn(chain, positions)[1..] == Drawn(chain, positions[1..]);
    FollowerIsNext(chain, positions[0], k);
  }

  lemma {:induction false} ConsecutiveDrawn(chain: seq<Event>, positions: seq<nat>, k: nat)
    requires Within(positions, |chain|) && k <= |chain| && Consecutive(positions, k)
    ensures k + |positions| <= |chain| && Drawn(chain, positions) == chain[k..k + |positions|]
    decreases |positions|
  {
    if positions != [] {
      ConsecutiveDrawn(chain, positions[1..], k + 1);
      SliceFirst(chain, k, k + |positions|, Drawn(chain, positions[1..]));
    }
  }

  lemma SliceFirst<T>(xs: seq<T>, i: nat, j: nat, rest: seq<T>)
    requires i < j <= |xs| && rest == xs[i + 1..j]
    ensures [xs[i]] + rest == xs[i..j]
  {
  }

  /** Dropping, repeating or reordering rows goes unnoticed exactly if what is left is the beginning of the log. */
  lemma OnlyPrefixesAccepted(chain: seq<Event>, positions: seq<nat>)
    requires Within(positions, |chain|)
    requires Linked(chain, GENESIS) && DistinctHashes(chain)
    ensures Linked(Drawn(chain, positions), GENESIS) <==> Drawn(chain, positions) <= chain
  {
    if Linked(Drawn(chain, positions), GENESIS) {
      AcceptedIsPrefix(chain, positions);
    } else if Drawn(chain, positions) <= chain {
      PrefixLinked(Drawn(chain, positions), chain, GENESIS);
      assert false;
    }
  }

  lemma AcceptedIsPrefix(chain: seq<Event>, positions: seq<nat>)
    requires Within(positions, |chain|)
    requires Linked(chain, GENESIS) && DistinctHashes(chain)
    requires Linked(Drawn(chain, positions), GENESIS)
    ensures Drawn(chain, positions) <= chain
  {
    DrawnInOrder(chain, positions, 0);
    ConsecutiveDrawn(chain, positions, 0);
  }

  lemma PrefixLinked(rows: seq<Event>, chain: seq<Event>, prev: string)
    requires rows <= chain && Linked(chain, prev)
    ensures Linked(rows, prev)
  {
    assert chain == rows + chain[|rows|..];
    LinkedConcat(rows, chain[|rows|..], prev);
  }

  // ----- Restarts -----

  /** The table after processes that ran one after another, each on the rows it found. */
  function Table(hash: Hash, processes: seq<seq<Op>>): seq<Event>
    decreases |processes|
  {
    if processes == [] then []
    else
      var last := |processes| - 1;
      After(hash, Start(Table(hash, processes[..last])), processes[last]).rows
  }

  /** The rows a process puts into the table. */
  function Own(hash: Hash, ops: seq<Op>): seq<Event> {
    After(hash, Start([]), ops).rows
  }

  function Behind(found: seq<Event>, s: State): State {
    s.(rows := found + s.rows)
  }

  lemma DoBehind(hash: Hash, found: seq<Event>, s: State, op: Op)
    ensures Do(hash, Behind(found, s), op) == Behind(found, Do(hash, s, op))
  {
    var t := if op.Logs? then Push(hash, s, op.facts) else s;
    assert (found + t.rows) + t.buffer == found + (t.rows + t.buffer);
  }

  lemma {:induction false} AfterBehind(hash: Hash, found: seq<Event>, s: State, ops: seq<Op>)
    ensures After(hash, Behind(found, s), ops) == Behind(found, After(hash, s, ops))
    decreases |ops|
  {
    if ops != [] {
      var front := ops[..|ops| - 1];
      AfterBehind(hash, found, s, front);
      DoBehind(hash, found, After(hash, s, front), ops[|ops| - 1]);
    }
  }

  /** What a process adds does not depend on what it finds. */
  lemma AddsOwn(hash: Hash, found: seq<Event>, ops: seq<Op>)
    ensures After(hash, Start(found), ops).rows == found + Own(hash, ops)
  {
    assert Start(found) == Behind(found, Start([]));
    AfterBehind(hash, found, Start([]), ops);
  }

  predicate NoneIsGenesis(rows: seq<Event>) {
    forall i | 0 <= i < |rows| :: rows[i].hash != GENESIS
  }

  lemma OwnRows(hash: Hash, ops: seq<Op>)
    requires NoneIsGenesis(Chain(hash, GENESIS, Logged(ops)))
    ensures Linked(Own(hash, ops), GENESIS) && NoneIsGenesis(Own(hash, ops))
  {
    ChainAccepted(hash, ops);
  }

  /** A chain from GENESIS goes on from another row only if it is empty. */
  lemma Rejoined(a: seq<Event>, b: seq<Event>)
    requires NoneIsGenesis(a) && Linked(b, GENESIS)
    ensures Linked(a + b, GENESIS) <==> Linked(a, GENESIS) && (a == [] || b == [])
  {
    LinkedConcat(a, b, GENESIS);
  }

  /** No process but perhaps one has rows in the table. */
  ghost predicate AtMostOneWrote(hash: Hash, processes: seq<seq<Op>>) {
    forall i, j | 0 <= i < j < |processes| :: Own(hash, processes[i]) == [] || Own(hash, processes[j]) == []
  }

  ghost predicate NoneWrote(hash: Hash, processes: seq<seq<Op>>) {
    forall i | 0 <= i < |processes| :: Own(hash, processes[i]) == []
  }

  lemma OneMoreProcess(hash: Hash, front: seq<seq<Op>>, ops: seq<Op>)
    ensures AtMostOneWrote(hash, front + [ops])
       <==> AtMostOneWrote(hash, front) && (Own(hash, ops) == [] || NoneWrote(hash, front))
  {
    var all := front + [ops];
    if AtMostOneWrote(hash, all) {
      forall i, j | 0 <= i < j < |front|
        ensures Own(hash, front[i]) == [] || Own(hash, front[j]) == []
      {
        assert all[i] == front[i] && all[j] == front[j];
      }
      forall i | 0 <= i < |front| && Own(hash, ops) != []
        ensures Own(hash, front[i]) == []
      {
        assert all[i] == front[i] && all[|front|] == ops;
      }
    }
  }

  ghost predicate NoLogIsGenesis(hash: Hash, processes: seq<seq<Op>>) {
    forall i | 0 <= i < |processes| :: NoneIsGenesis(Chain(hash, GENESIS, Logged(processes[i])))
  }

  /** Each process starts its chain at GENESIS again, so the check accepts the table that any number of processes have
      left, one after another, exactly if at most one of them has rows in it. */
  lemma {:induction false} RestartBreaksChain(hash: Hash, processes: seq<seq<Op>>)
    requires NoLogIsGenesis(hash, processes)
    ensures Linked(Table(hash, processes), GENESIS) <==> AtMostOneWrote(hash, processes)
    ensures NoneIsGenesis(Table(hash, processes))
    ensures Table(hash, processes) == [] <==> NoneWrote(hash, processes)
    decreases |processes|
  {
    if processes != [] {
      var front, ops := processes[..|processes| - 1], processes[|processes| - 1];
      assert processes == front + [ops];
      RestartBreaksChain(hash, front);
      AddsOwn(hash, Table(hash, front), ops);
      OwnRows(hash, ops);
      Rejoined(Table(hash, front), Own(hash, ops));
      OneMoreProcess(hash, front, ops);
    }
  }

  /** Two processes that log and flush one event each: the check refuses their rows. */
  lemma TwoProcessesRefused(hash: Hash, f: Facts, g: Facts)
    requires hash(f, GENESIS) != GENESIS
    ensures var rows1 := After(hash, Start([]), [Logs(f), Flushes]).rows;
      var rows := After(hash, Start(rows1), [Logs(g), Flushes]).rows;
      && |rows1| == 1 && |rows| == 2 && rows1 <= rows && !Linked(rows, GENESIS)
  {
    OneEvent(hash, [], f);
    var rows1 := After(hash, Start([]), [Logs(f), Flushes]).rows;
    OneEvent(hash, rows1, g);
    LinkedConcat(rows1, [Event(g, GENESIS, hash(g, GENESIS))], GENESIS);
  }

  lemma OneEvent(hash: Hash, found: seq<Event>, f: Facts)
    ensures After(hash, Start(found), [Logs(f), Flushes]).rows == found + [Event(f, GENESIS, hash(f, GENESIS))]
  {
    var ops := [Logs(f), Flushes];
    assert ops[..1] == [Logs(f)] && [Logs(f)][..0] == [];
    assert After(hash, Start(found), [Logs(f)]) == Log(hash, Start(found), f);
  }
}
