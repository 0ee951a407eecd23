/**
 The parties of a file transfer: whose answer to an offer counts, and which client is behind
 an fd that the relay has recorded.
 */
module FileParties {
  import opened Bytes
  import opened Options
  import opened FileRelay

  // ----- Whose answer counts -----

  /** The receiver of a transfer accepts it. */
  predicate Consents(s: Table, i: Input, tid: string) {
    tid in s && i.event == Accept(s[tid].receiver, tid)
  }

  /** The open transfers whose receiver has accepted since they were opened. */
  ghost function Consented(trace: seq<Table>, inputs: seq<Input>, i: nat): iset<string>
    requires |trace| == |inputs| + 1 && i < |trace|
  {
    if i == 0 then iset{}
    else
      iset tid | tid in trace[i] && !(Opens(inputs[i - 1]) && inputs[i - 1].event.tid == tid)
                 && (tid in Consented(trace, inputs, i - 1) || Consents(trace[i - 1], inputs[i - 1], tid))
  }

  /** No transfer is under way without its receiver's consent. */
  ghost predicate OnlyByConsent(trace: seq<Table>, inputs: seq<Input>, i: nat)
    requires |trace| == |inputs| + 1 && i < |trace|
  {
    forall tid | tid in trace[i] && trace[i][tid].status != Pending :: tid in Consented(trace, inputs, i)
  }

  /** Someone else accepts a transfer that is still waiting for its receiver's answer. */
  predicate StrangerAccepts(s: Table, i: Input) {
    && i.event.Accept? && i.event.tid in s
    && s[i.event.tid].status == Pending && i.event.from != s[i.event.tid].receiver
  }

  /** A waiting transfer has no consent. */
  lemma {:induction false} PendingMeansNone(trace: seq<Table>, inputs: seq<Input>, i: nat, tid: string)
    requires Run(trace, inputs) && i < |trace| && tid in trace[i] && trace[i][tid].status == Pending
    ensures tid !in Consented(trace, inputs, i)
  {
    if i > 0 {
      assert trace[i] == Step(trace[i - 1], inputs[i - 1]);
      if tid in trace[i - 1] && trace[i - 1][tid].status == Pending {
        PendingMeansNone(trace, inputs, i - 1, tid);
      }
    }
  }

  lemma ConsentStep(trace: seq<Table>, inputs: seq<Input>, i: nat)
    requires Run(trace, inputs) && i < |inputs| && OnlyByConsent(trace, inputs, i)
    ensures OnlyByConsent(trace, inputs, i + 1) <==> !StrangerAccepts(trace[i], inputs[i])
  {
    assert trace[i + 1] == Step(trace[i], inputs[i]);
    if StrangerAccepts(trace[i], inputs[i]) {
      var tid := inputs[i].event.tid;
      PendingMeansNone(trace, inputs, i, tid);
      assert tid in trace[i + 1] && trace[i + 1][tid].status != Pending && tid !in Consented(trace, inputs, i + 1);
    } else {
      var after := trace[i + 1];
      forall tid | tid in after && after[tid].status != Pending
        ensures tid in Consented(trace, inputs, i + 1)
      {
        assert tid in trace[i];
      }
    }
  }

  /** Every transfer that was ever under way had its receiver's consent, exactly if nobody else ever accepted one. */
  lemma {:induction false} ConsentExactly(trace: seq<Table>, inputs: seq<Input>, i: nat)
    requires Run(trace, inputs) && i < |trace|
    ensures (forall k | 0 <= k <= i :: OnlyByConsent(trace, inputs, k))
       <==> (forall k | 0 <= k < i :: !StrangerAccepts(trace[k], inputs[k]))
  {
    if i > 0 {
      ConsentExactly(trace, inputs, i - 1);
      if forall k | 0 <= k <= i - 1 :: OnlyByConsent(trace, inputs, k) {
        ConsentStep(trace, inputs, i - 1);
      }
    }
  }

  /** What an outsider can do to a transfer: exactly reject it, or accept it while it is not accepted. */
  lemma OutsidersExactly(s: Table, i: Input, tid: string)
    requires tid in s && !i.event.Cleanup? && i.event.from != s[tid].sender && i.event.from != s[tid].receiver
    requires !(Opens(i) && i.event.tid == tid)
    ensures tid in Step(s, i) && Step(s, i)[tid] == s[tid]
       <==> !(i.event.tid == tid && (i.event.Reject? || (i.event.Accept? && s[tid].status != Accepted)))
  {
  }

  /** A run in which a third client accepts, and the chunk goes to a receiver that never did. */
  lemma StrangerOpensTheWay(sender: int, receiver: int, stranger: int, tid: string, filename: string,
                            now: int, chunk: seq<byte>)
    returns (trace: seq<Table>, inputs: seq<Input>)
    requires receiver != stranger
    ensures Run(trace, inputs) && |inputs| == 3
    ensures forall k | 0 <= k < 3 && inputs[k].event.Accept? :: inputs[k].event.from != receiver
    ensures Sent(trace[2], inputs[2]) == {DataTo(receiver, tid, true, chunk)} && tid !in Consented(trace, inputs, 2)
  {
    var online := {sender, receiver, stranger};
    inputs := [Input(Request(sender, tid, Some(receiver), filename, true), now, online),
               Input(Accept(stranger, tid), now, online),
               Input(Data(sender, tid, true, chunk), now, online)];
    var s1 := Step(map[], inputs[0]);
    var s2 := Step(s1, inputs[1]);
    trace := [map[], s1, s2, Step(s2, inputs[2])];
    assert tid !in Consented(trace, inputs, 1);
  }

  // ----- Which client is behind an fd -----

  /** The relay and the live sessions: the connection that has each fd. `used` are all connections so far, with
      the fd they were given. */
  datatype World = World(table: Table, sessions: map<int, nat>, used: map<nat, int>)

  /** A packet is handled under the fd of the connection it came over, `over`, which may be gone by then. */
  datatype Happening =
    | Connects(fd: int, c: nat)
    | Closes(fd: int)
    | Handles(event: Event, now: int, over: nat)

  predicate Enabled(w: World, h: Happening) {
    match h
    case Connects(fd, c) => fd !in w.sessions && c !in w.used
    case Closes(fd) => fd in w.sessions
    case Handles(e, _, over) => !e.Cleanup? ==> over in w.used && w.used[over] == e.from
  }

  /** An input that the relay ignores. */
  const Idle: Input := Input(Request(0, "", None, "", false), 0, {})

  function InputOf(w: World, h: Happening): Input {
    if h.Handles? then Input(h.event, h.now, w.sessions.Keys) else Idle
  }

  function Next(w: World, h: Happening): World {
    match h
    case Connects(fd, c) => w.(sessions := w.sessions[fd := c], used := w.used[c := fd])
    case Closes(fd) => w.(sessions := w.sessions - {fd})
    case Handles(_, _, _) => w.(table := Step(w.table, InputOf(w, h)))
  }

  ghost predicate Lives(trace: seq<World>, hs: seq<Happening>) {
    && |trace| == |hs| + 1
    && trace[0] == World(map[], map[], map[])
    && forall i | 0 <= i < |hs| :: Enabled(trace[i], hs[i]) && trace[i + 1] == Next(trace[i], hs[i])
  }

  function Tables(trace: seq<World>): (ts: seq<Table>)
    ensures |ts| == |trace| && forall i | 0 <= i < |trace| :: ts[i] == trace[i].table
  {
    if trace == [] then [] else [trace[0].table] + Tables(trace[1..])
  }

  function Inputs(trace: seq<World>, hs: seq<Happening>): (ins: seq<Input>)
    requires |trace| == |hs| + 1
    ensures |ins| == |hs| && forall i | 0 <= i < |hs| :: ins[i] == InputOf(trace[i], hs[i])
  {
    if hs == [] then [] else [InputOf(trace[0], hs[0])] + Inputs(trace[1..], hs[1..])
  }

  lemma LivesRuns(trace: seq<World>, hs: seq<Happening>)
    requires Lives(trace, hs)
    ensures Run(Tables(trace), Inputs(trace, hs))
  {
    forall i | 0 <= i < |hs|
      ensures Tables(trace)[i + 1] == Step(Tables(trace)[i], Inputs(trace, hs)[i])
    {
      assert trace[i + 1] == Next(trace[i], hs[i]);
    }
  }

  predicate Held(w: World, fd: int, c: nat) {
    fd in w.sessions && w.sessions[fd] == c
  }

  ghost predicate KeptOpen(hs: seq<Happening>, fd: int, r: nat, j: nat)
    requires r <= j <= |hs|
  {
    forall k | r <= k < j :: hs[k] != Closes(fd)
  }

  lemma {:induction false} Known(trace: seq<World>, hs: seq<Happening>, i: nat, fd: int)
    requires Lives(trace, hs) && i < |trace| && fd in trace[i].sessions
    ensures trace[i].sessions[fd] in trace[i].used
  {
    if i > 0 {
      assert Enabled(trace[i - 1], hs[i - 1]) && trace[i] == Next(trace[i - 1], hs[i - 1]);
      if fd in trace[i - 1].sessions {
        Known(trace, hs, i - 1, fd);
      }
    }
  }

  /** A connection still has its fd exactly if the fd was not closed since. */
  lemma {:induction false} HeldExactly(trace: seq<World>, hs: seq<Happening>, r: nat, j: nat, fd: int, c: nat)
    requires Lives(trace, hs) && r <= j < |trace| && Held(trace[r], fd, c)
    ensures Held(trace[j], fd, c) <==> KeptOpen(hs, fd, r, j)
    ensures c in trace[j].used
    decreases j
  {
    Known(trace, hs, r, fd);
    if r < j {
      HeldExactly(trace, hs, r, j - 1, fd, c);
      assert KeptOpen(hs, fd, r, j) <==> KeptOpen(hs, fd, r, j - 1) && hs[j - 1] != Closes(fd);
      assert Enabled(trace[j - 1], hs[j - 1]) && trace[j] == Next(trace[j - 1], hs[j - 1]);
    }
  }

  /** The packet is handled while the connection it came over is there. */
  predicate InTime(w: World, h: Happening) {
    h.Handles? && !h.event.Cleanup? && Held(w, h.event.from, h.over)
  }

  lemma RequestOf(trace: seq<World>, hs: seq<Happening>, j: nat, to: int, tid: string, isStart: bool, chunk: seq<byte>)
    returns (r: nat)
    requires Lives(trace, hs) && j < |hs|
    requires DataTo(to, tid, isStart, chunk) in Sent(trace[j].table, InputOf(trace[j], hs[j]))
    ensures r < j && hs[r].Handles? && Opens(InputOf(trace[r], hs[r])) && hs[r].event.tid == tid
    ensures hs[r].event.receiver == Some(to) && hs[j].Handles? && hs[j].event == Data(hs[r].event.from, tid, isStart, chunk)
  {
    LivesRuns(trace, hs);
    var a;
    r, a := DataRelayed(Tables(trace), Inputs(trace, hs), j, to, tid, isStart, chunk);
  }

  /** A chunk reaches the client that the request named exactly if that client's fd was not closed in between; and,
      of packets handled in time, it comes from the client that made the request exactly if the sender's fd was not. */
  lemma ChunkReachesNamedExactly(
    trace: seq<World>, hs: seq<Happening>, j: nat, to: int, tid: string, isStart: bool, chunk: seq<byte>)
    returns (r: nat)
    requires Lives(trace, hs) && j < |hs|
    requires DataTo(to, tid, isStart, chunk) in Sent(trace[j].table, InputOf(trace[j], hs[j]))
    ensures r < j && hs[r].Handles? && Opens(InputOf(trace[r], hs[r])) && hs[r].event.tid == tid
    ensures hs[r].event.receiver == Some(to) && hs[j].Handles? && hs[j].event == Data(hs[r].event.from, tid, isStart, chunk)
    ensures to in trace[r].sessions && to in trace[j].sessions
    ensures trace[j].sessions[to] == trace[r].sessions[to] <==> KeptOpen(hs, to, r, j)
    ensures InTime(trace[r], hs[r]) && InTime(trace[j], hs[j]) ==>
              (hs[j].over == hs[r].over <==> KeptOpen(hs, hs[r].event.from, r, j))
  {
    r := RequestOf(trace, hs, j, to, tid, isStart, chunk);
    HeldExactly(trace, hs, r, j, to, trace[r].sessions[to]);
    if InTime(trace[r], hs[r]) {
      HeldExactly(trace, hs, r, j, hs[r].event.from, hs[r].over);
    }
  }

  predicate Leads(w: World, h: Happening, w': World) {
    Enabled(w, h) && w' == Next(w, h)
  }

  /** Two clients connect and agree on a transfer. */
  lemma Agreed(sender: int, receiver: int, tid: string, filename: string, now: int)
    returns (w1: World, w2: World, w3: World, w4: World)
    requires sender != receiver
    ensures Leads(World(map[], map[], map[]), Connects(sender, 1), w1) && Leads(w1, Connects(receiver, 2), w2)
    ensures Leads(w2, Handles(Request(sender, tid, Some(receiver), filename, true), now, 1), w3)
    ensures Leads(w3, Handles(Accept(receiver, tid), now, 2), w4)
    ensures Held(w2, receiver, 2) && Held(w4, sender, 1) && Held(w4, receiver, 2)
    ensures w4.used == map[1 := sender, 2 := receiver]
    ensures w4.table == map[tid := Transfer(sender, receiver, filename, now, now, false, Accepted)]
  {
    w1 := Next(World(map[], map[], map[]), Connects(sender, 1));
    w2 := Next(w1, Connects(receiver, 2));
    w3 := Next(w2, Handles(Request(sender, tid, Some(receiver), filename, true), now, 1));
    w4 := Next(w3, Handles(Accept(receiver, tid), now, 2));
  }

  /** The receiver's fd passes to someone else. */
  lemma PassedOn(w4: World, sender: int, receiver: int, tid: string, filename: string, now: int, chunk: seq<byte>)
    returns (w5: World, w6: World, w7: World)
    requires sender != receiver && Held(w4, sender, 1) && Held(w4, receiver, 2)
    requires w4.used == map[1 := sender, 2 := receiver]
    requires w4.table == map[tid := Transfer(sender, receiver, filename, now, now, false, Accepted)]
    ensures Leads(w4, Closes(receiver), w5) && Leads(w5, Connects(receiver, 3), w6)
    ensures Leads(w6, Handles(Data(sender, tid, true, chunk), now, 1), w7)
    ensures Held(w6, receiver, 3)
    ensures Sent(w6.table, InputOf(w6, Handles(Data(sender, tid, true, chunk), now, 1)))
         == {DataTo(receiver, tid, true, chunk)}
  {
    w5 := Next(w4, Closes(receiver));
    w6 := Next(w5, Connects(receiver, 3));
    w7 := Next(w6, Handles(Data(sender, tid, true, chunk), now, 1));
  }

  /** A run in which the receiver leaves and the chunk goes to whoever is given its fd. */
  lemma NewcomerGetsChunk(sender: int, receiver: int, tid: string, filename: string, now: int, chunk: seq<byte>)
    returns (trace: seq<World>, hs: seq<Happening>)
    requires sender != receiver
    ensures Lives(trace, hs) && |hs| == 7
    ensures hs[2] == Handles(Request(sender, tid, Some(receiver), filename, true), now, 1)
    ensures Held(trace[2], receiver, 2) && Held(trace[6], receiver, 3)
    ensures Sent(trace[6].table, InputOf(trace[6], hs[6])) == {DataTo(receiver, tid, true, chunk)}
  {
    var w1, w2, w3, w4 := Agreed(sender, receiver, tid, filename, now);
    var w5, w6, w7 := PassedOn(w4, sender, receiver, tid, filename, now, chunk);
    trace := [World(map[], map[], map[]), w1, w2, w3, w4, w5, w6, w7];
    hs := [Connects(sender, 1), Connects(receiver, 2),
           Handles(Request(sender, tid, Some(receiver), filename, true), now, 1),
           Handles(Accept(receiver, tid), now, 2), Closes(receiver), Connects(receiver, 3),
           Handles(Data(sender, tid, true, chunk), now, 1)];
    forall i | 0 <= i < |hs|
      ensures Leads(trace[i], hs[i], trace[i + 1])
    {
      assert i == 0 || i == 1 || i == 2 || i == 3 || i == 4 || i == 5 || i == 6;
    }
    LeadsLive(trace, hs);
  }

  lemma LeadsLive(trace: seq<World>, hs: seq<Happening>)
    requires |trace| == |hs| + 1 && trace[0] == World(map[], map[], map[])
    requires forall i | 0 <= i < |hs| :: Leads(trace[i], hs[i], trace[i + 1])
    ensures Lives(trace, hs)
  {
    forall i | 0 <= i < |hs|
      ensures Enabled(trace[i], hs[i]) && trace[i + 1] == Next(trace[i], hs[i])
    {
      assert Leads(trace[i], hs[i], trace[i + 1]);
    }
  }
}
