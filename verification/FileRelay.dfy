/**
 The server's relay of file transfers between two clients: a table of transfers, updated by
 the packets of both sides and swept for transfers that have gone quiet.
 */
module FileRelay {
  import opened Bytes
  import opened Options

  /** Seconds without activity after which a running transfer is dropped. */
  const QUIET_LIMIT := 5

  /** Seconds after which a transfer that has not started is dropped. */
  const START_LIMIT := 120

  datatype Status = Pending | Accepted | InProgress

  datatype Transfer = Transfer(
    sender: int, receiver: int, filename: string, start: int, last: int, completed: bool, status: Status)

  type Table = map<string, Transfer>

  datatype Event =
    | Request(from: int, tid: string, receiver: Option<int>, filename: string, checksPass: bool)
    | Accept(from: int, tid: string)
    | Reject(from: int, tid: string)
    | Data(from: int, tid: string, isStart: bool, chunk: seq<byte>)
    | Complete(from: int, tid: string)
    | Ack(from: int, tid: string)
    | Cleanup

  /** An event, when it is handled and which fds have a session then. */
  datatype Input = Input(event: Event, now: int, online: set<int>)

  datatype Out =
    | OfferTo(to: int, tid: string, filename: string)
    | AcceptTo(to: int, tid: string, filename: string)
    | RejectTo(to: int, tid: string)
    | DataTo(to: int, tid: string, isStart: bool, chunk: seq<byte>)
    | CompleteTo(to: int, tid: string)
    | AckTo(to: int, tid: string)
    | FailedTo(to: int, tid: string)

  // ----- One step -----

  predicate Opens(i: Input) {
    && i.event.Request? && i.event.checksPass && i.event.from in i.online
    && i.event.receiver.Some? && i.event.receiver.value in i.online
  }

  /** The relay takes a chunk from the sender it recorded, once the transfer was accepted. */
  predicate TakesData(s: Table, e: Event) {
    e.Data? && e.tid in s && s[e.tid].sender == e.from && s[e.tid].status != Pending
  }

  predicate Expired(t: Transfer, now: int) {
    if t.status == InProgress then now - t.last > QUIET_LIMIT else now - t.start > START_LIMIT
  }

  function Step(s: Table, i: Input): Table {
    match i.event
    case Request(from, tid, receiver, filename, _) =>
      if !Opens(i) then s
      else s[tid := Transfer(from, receiver.value, filename, i.now, i.now, false, Pending)]
    case Accept(_, tid) => if tid in s then s[tid := s[tid].(status := Accepted)] else s
    case Reject(_, tid) => s - {tid}
    case Data(from, tid, _, _) =>
      if !TakesData(s, i.event) then s
      else if s[tid].receiver !in i.online then s - {tid}
      else s[tid := s[tid].(status := InProgress, last := i.now)]
    case Complete(from, tid) =>
      if tid in s && s[tid].sender == from then s[tid := s[tid].(completed := true, last := i.now)] else s
    case Ack(from, tid) => if tid in s && s[tid].receiver == from then s - {tid} else s
    case Cleanup => map tid | tid in s && !Expired(s[tid], i.now) :: s[tid]
  }

  /** Whom a sweep tells that a transfer is dropped: the side that is still waiting. */
  function Waiting(t: Transfer): int {
    if t.completed then t.sender else t.receiver
  }

  predicate Tells(t: Transfer, i: Input) {
    t.status == InProgress && Expired(t, i.now) && Waiting(t) in i.online
  }

  function Sent(s: Table, i: Input): set<Out> {
    match i.event
    case Request(_, tid, receiver, filename, _) => if Opens(i) then {OfferTo(receiver.value, tid, filename)} else {}
    case Accept(_, tid) =>
      if tid in s && s[tid].sender in i.online then {AcceptTo(s[tid].sender, tid, s[tid].filename)} else {}
    case Reject(_, tid) => if tid in s && s[tid].sender in i.online then {RejectTo(s[tid].sender, tid)} else {}
    case Data(_, tid, isStart, chunk) =>
      if TakesData(s, i.event) && s[tid].receiver in i.online then {DataTo(s[tid].receiver, tid, isStart, chunk)} else {}
    case Complete(from, tid) =>
      if tid in s && s[tid].sender == from && s[tid].receiver in i.online then {CompleteTo(s[tid].receiver, tid)} else {}
    case Ack(from, tid) =>
      if tid in s && s[tid].receiver == from && s[tid].sender in i.online then {AckTo(s[tid].sender, tid)} else {}
    case Cleanup => set tid | tid in s && Tells(s[tid], i) :: FailedTo(Waiting(s[tid]), tid)
  }

  // ----- The object -----

  class FileTransfer {
    var transfers: Table

    constructor ()
      ensures transfers == map[]
    {
      transfers := map[];
    }

    method HandleRequest(i: Input) returns (sent: set<Out>)
      requires i.event.Request?
      modifies this
      ensures transfers == Step(old(transfers), i) && sent == Sent(old(transfers), i)
    {
      sent := {};
      if i.event.from !in i.online || !i.event.checksPass {
        return;
      }
      if i.event.receiver.None? || i.event.receiver.value !in i.online {
        return;
      }
      var to := i.event.receiver.value;
      transfers := transfers[i.event.tid := Transfer(i.event.from, to, i.event.filename, i.now, i.now, false, Pending)];
      sent := {OfferTo(to, i.event.tid, i.event.filename)};
    }

    method HandleAccept(i: Input) returns (sent: set<Out>)
      requires i.event.Accept?
      modifies this
      ensures transfers == Step(old(transfers), i) && sent == Sent(old(transfers), i)
    {
      var tid := i.event.tid;
      sent := {};
      if tid !in transfers {
        return;
      }
      transfers := transfers[tid := transfers[tid].(status := Accepted)];
      if transfers[tid].sender in i.online {
        sent := {AcceptTo(transfers[tid].sender, tid, transfers[tid].filename)};
      }
    }

    method HandleReject(i: Input) returns (sent: set<Out>)
      requires i.event.Reject?
      modifies this
      ensures transfers == Step(old(transfers), i) && sent == Sent(old(transfers), i)
    {
      var tid := i.event.tid;
      sent := {};
      if tid in transfers {
        if transfers[tid].sender in i.online {
          sent := {RejectTo(transfers[tid].sender, tid)};
        }
      }
      transfers := transfers - {tid};
    }

    method HandleData(i: Input) returns (sent: set<Out>)
      requires i.event.Data?
      modifies this
      ensures transfers == Step(old(transfers), i) && sent == Sent(old(transfers), i)
    {
      var tid := i.event.tid;
      sent := {};
      if tid !in transfers || transfers[tid].sender != i.event.from || transfers[tid].status == Pending {
        return;
      }
      transfers := transfers[tid := transfers[tid].(status := InProgress, last := i.now)];
      if transfers[tid].receiver !in i.online {
        transfers := transfers - {tid};
        return;
      }
      sent := {DataTo(transfers[tid].receiver, tid, i.event.isStart, i.event.chunk)};
    }

    method HandleComplete(i: Input) returns (sent: set<Out>)
      requires i.event.Complete?
      modifies this
      ensures transfers == Step(old(transfers), i) && sent == Sent(old(transfers), i)
    {
      var tid := i.event.tid;
      sent := {};
      if tid !in transfers || transfers[tid].sender != i.event.from {
        return;
      }
      transfers := transfers[tid := transfers[tid].(completed := true, last := i.now)];
      if transfers[tid].receiver in i.online {
        sent := {CompleteTo(transfers[tid].receiver, tid)};
      }
    }

    method HandleAck(i: Input) returns (sent: set<Out>)
      requires i.event.Ack?
      modifies this
      ensures transfers == Step(old(transfers), i) && sent == Sent(old(transfers), i)
    {
      var tid := i.event.tid;
      sent := {};
      if tid !in transfers || transfers[tid].receiver != i.event.from {
        return;
      }
      if transfers[tid].sender in i.online {
        sent := {AckTo(transfers[tid].sender, tid)};
      }
      transfers := transfers - {tid};
    }

    /** Erases while iterating over the table. */
    method CleanupExpired(i: Input) returns (sent: set<Out>)
      requires i.event.Cleanup?
      modifies this
      ensures transfers == Step(old(transfers), i) && sent == Sent(old(transfers), i)
    {
      sent := {};
      var todo := transfers.Keys;
      while todo != {}
        invariant todo <= old(transfers).Keys
        invariant Swept(old(transfers), transfers, todo, i)
        invariant Told(old(transfers), sent, todo, i)
        decreases |todo|
      {
        var tid :| tid in todo;
        var t := transfers[tid];
        todo := todo - {tid};
        if t.status == InProgress {
          if i.now - t.last > QUIET_LIMIT {
            var waiting := if !t.completed then t.receiver else t.sender;
            if waiting in i.online {
              sent := sent + {FailedTo(waiting, tid)};
            }
            transfers := transfers - {tid};
          }
        } else if i.now - t.start > START_LIMIT {
          transfers := transfers - {tid};
        }
      }
      SweepDone(old(transfers), transfers, sent, i);
    }
  }

  /** The entries that remain when all but `todo` have been looked at. */
  ghost predicate Swept(before: Table, after: Table, todo: set<string>, i: Input) {
    && (forall tid :: tid in after <==> tid in before && (tid in todo || !Expired(before[tid], i.now)))
    && (forall tid | tid in after :: after[tid] == before[tid])
  }

  /** The notices sent by then. */
  ghost predicate Told(before: Table, sent: set<Out>, todo: set<string>, i: Input) {
    && (forall tid | tid in before && tid !in todo && Tells(before[tid], i) :: FailedTo(Waiting(before[tid]), tid) in sent)
    && (forall o | o in sent ::
          o.FailedTo? && o.tid in before && o.tid !in todo && Tells(before[o.tid], i) && o.to == Waiting(before[o.tid]))
  }

  lemma SweepDone(before: Table, after: Table, sent: set<Out>, i: Input)
    requires i.event.Cleanup? && Swept(before, after, {}, i) && Told(before, sent, {}, i)
    ensures after == Step(before, i) && sent == Sent(before, i)
  {
    assert after.Keys == Step(before, i).Keys;
    forall o
      ensures o in sent <==> o in Sent(before, i)
    {
      if o in Sent(before, i) {
        assert FailedTo(Waiting(before[o.tid]), o.tid) in sent;
      }
    }
  }

  // ----- Runs -----

  ghost predicate Run(trace: seq<Table>, inputs: seq<Input>) {
    && |trace| == |inputs| + 1
    && trace[0] == map[]
    && forall i | 0 <= i < |inputs| :: trace[i + 1] == Step(trace[i], inputs[i])
  }

  /** generateTransferId never returns the same id twice. */
  ghost predicate UniqueIds(inputs: seq<Input>) {
    forall i, j | 0 <= i < j < |inputs| && Opens(inputs[i]) && Opens(inputs[j]) ::
      inputs[i].event.tid != inputs[j].event.tid
  }

  /** The input opened this transfer. */
  predicate Opened(i: Input, tid: string, t: Transfer) {
    Opens(i) && i.event.tid == tid && i.event.from == t.sender && i.event.receiver.value == t.receiver && i.now == t.start
  }

  /** A packet of the sender that counts as activity. */
  predicate Active(i: Input, tid: string, t: Transfer) {
    (i.event.Data? || i.event.Complete?) && i.event.tid == tid && i.event.from == t.sender && i.now == t.last
  }

  /** Where an entry comes from: opened at r, present ever since, accepted at a, active at l. */
  ghost predicate Past(trace: seq<Table>, inputs: seq<Input>, i: nat, tid: string, r: nat, a: nat, l: nat)
    requires |trace| == |inputs| + 1 && i < |trace|
  {
    && tid in trace[i]
    && r < i && Opened(inputs[r], tid, trace[i][tid])
    && (forall k | r < k <= i :: tid in trace[k])
    && (trace[i][tid].status != Pending ==> r < a < i && inputs[a].event.Accept? && inputs[a].event.tid == tid)
    && (trace[i][tid].status == InProgress ==> a < l < i && Active(inputs[l], tid, trace[i][tid]))
  }

  /** One more step of the past. */
  lemma PastStep(trace: seq<Table>, inputs: seq<Input>, i: nat, tid: string, r: nat, a: nat, l: nat)
    returns (r': nat, a': nat, l': nat)
    requires Run(trace, inputs) && i < |inputs| && tid in trace[i + 1]
    requires tid in trace[i] ==> Past(trace, inputs, i, tid, r, a, l)
    ensures Past(trace, inputs, i + 1, tid, r', a', l')
  {
    r', a', l' := r, a, l;
    var e := inputs[i].event;
    assert trace[i + 1] == Step(trace[i], inputs[i]);
    if Opens(inputs[i]) && e.tid == tid {
      r' := i;
    } else if e.Accept? && e.tid == tid {
      a' := i;
    } else if (e.Data? || e.Complete?) && e.tid == tid && e.from == trace[i][tid].sender {
      l' := i;
    }
  }

  /** Every entry of every reachable table has a past. */
  lemma {:induction false} History(trace: seq<Table>, inputs: seq<Input>, i: nat, tid: string)
    returns (r: nat, a: nat, l: nat)
    requires Run(trace, inputs) && i < |trace| && tid in trace[i]
    ensures Past(trace, inputs, i, tid, r, a, l)
    decreases i
  {
    assert i > 0;
    r, a, l := 0, 0, 0;
    if tid in trace[i - 1] {
      r, a, l := History(trace, inputs, i - 1, tid);
    }
    r, a, l := PastStep(trace, inputs, i - 1, tid, r, a, l);
  }

  /** A chunk goes out only as it came from the fd that opened the transfer, to the fd it named,
      and only after an accept; the transfer has not ended in between. */
  lemma DataRelayed(trace: seq<Table>, inputs: seq<Input>, j: nat, to: int, tid: string, isStart: bool, chunk: seq<byte>)
    returns (r: nat, a: nat)
    requires Run(trace, inputs) && j < |inputs|
    requires DataTo(to, tid, isStart, chunk) in Sent(trace[j], inputs[j])
    ensures r < a < j
    ensures Opens(inputs[r]) && inputs[r].event.tid == tid && inputs[r].event.receiver.value == to
    ensures inputs[j].event == Data(inputs[r].event.from, tid, isStart, chunk)
    ensures inputs[a].event.Accept? && inputs[a].event.tid == tid
    ensures forall k | r < k <= j :: tid in trace[k]
  {
    var l;
    r, a, l := History(trace, inputs, j, tid);
  }

  /** What ends a transfer: exactly these. */
  predicate Ends(s: Table, i: Input, tid: string) {
    && tid in s
    && match i.event {
         case Reject(_, t) => t == tid
         case Ack(from, t) => t == tid && from == s[tid].receiver
         case Data(_, t, _, _) => t == tid && TakesData(s, i.event) && s[tid].receiver !in i.online
         case Cleanup => Expired(s[tid], i.now)
         case _ => false
       }
  }

  lemma EndsExactly(s: Table, i: Input, tid: string)
    ensures Ends(s, i, tid) <==> tid in s && tid !in Step(s, i)
  {
  }

  /** Only an open transfer, or the request that opens it, makes the relay send anything. */
  lemma SilentWithoutEntry(s: Table, i: Input, tid: string, o: Out)
    requires tid !in s && !(Opens(i) && i.event.tid == tid)
    requires o in Sent(s, i)
    ensures o.tid != tid && tid !in Step(s, i)
  {
  }

  lemma StaysAbsent(s: Table, i: Input, tid: string)
    requires tid !in s && !(Opens(i) && i.event.tid == tid)
    ensures tid !in Step(s, i)
  {
  }

  lemma {:induction false} AbsentAfterEnd(trace: seq<Table>, inputs: seq<Input>, k: nat, j: nat, tid: string)
    requires Run(trace, inputs) && UniqueIds(inputs) && k < j < |trace| && Ends(trace[k], inputs[k], tid)
    ensures tid !in trace[j]
    ensures forall i | k <= i < |inputs| :: !(Opens(inputs[i]) && inputs[i].event.tid == tid)
    decreases j
  {
    var r, a, l := History(trace, inputs, k, tid);
    assert Opens(inputs[r]) && inputs[r].event.tid == tid;
    if j == k + 1 {
      EndsExactly(trace[k], inputs[k], tid);
    } else {
      AbsentAfterEnd(trace, inputs, k, j - 1, tid);
      StaysAbsent(trace[j - 1], inputs[j - 1], tid);
    }
  }

  /** After a transfer has ended nothing is relayed for it. */
  lemma SilentAfterEnd(trace: seq<Table>, inputs: seq<Input>, k: nat, j: nat, tid: string, o: Out)
    requires Run(trace, inputs) && UniqueIds(inputs) && k < j < |inputs| && Ends(trace[k], inputs[k], tid)
    requires o in Sent(trace[j], inputs[j])
    ensures o.tid != tid
  {
    AbsentAfterEnd(trace, inputs, k, j, tid);
    SilentWithoutEntry(trace[j], inputs[j], tid, o);
  }

  /** What a sweep leaves was active within the last 5 seconds, or is waiting and was opened within the last 120. */
  lemma SurvivorsFresh(trace: seq<Table>, inputs: seq<Input>, j: nat, tid: string)
    returns (r: nat, l: nat)
    requires Run(trace, inputs) && j < |inputs| && inputs[j].event.Cleanup? && tid in trace[j + 1]
    ensures trace[j + 1][tid] == trace[j][tid]
    ensures r < j && Opened(inputs[r], tid, trace[j][tid])
    ensures if trace[j][tid].status == InProgress
            then r < l < j && Active(inputs[l], tid, trace[j][tid]) && inputs[j].now - inputs[l].now <= QUIET_LIMIT
            else inputs[j].now - inputs[r].now <= START_LIMIT
  {
    assert trace[j + 1] == Step(trace[j], inputs[j]);
    var a;
    r, a, l := History(trace, inputs, j, tid);
  }
}
