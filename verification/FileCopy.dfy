/**
 A file's way from one client to another: cut into chunks by the sender, relayed by the server
 among the traffic of other transfers, and put together again by the receiver.
 */
module FileCopy {
  import opened Bytes
  import opened Folds
  import opened FileRelay
  import opened FileNames

  const CHUNK: nat := 4096

  // ----- The sender -----

  function Chunks(file: seq<byte>): seq<seq<byte>> {
    if file == [] then []
    else if |file| <= CHUNK then [file]
    else [file[..CHUNK]] + Chunks(file[CHUNK..])
  }

  lemma {:induction false} ChunksJoin(file: seq<byte>)
    ensures Flatten(Chunks(file)) == file
    ensures forall c | c in Chunks(file) :: 0 < |c| <= CHUNK
    decreases |file|
  {
    if file == [] {
    } else if |file| <= CHUNK {
      assert Chunks(file)[1..] == [];
    } else {
      assert Chunks(file)[1..] == Chunks(file[CHUNK..]);
      ChunksJoin(file[CHUNK..]);
    }
  }

  /** One DATA packet per chunk; the first is marked. */
  function DataPackets(from: int, tid: string, chunks: seq<seq<byte>>, first: bool): seq<Event> {
    if chunks == [] then []
    else [Data(from, tid, first, chunks[0])] + DataPackets(from, tid, chunks[1..], false)
  }

  function Upload(from: int, tid: string, file: seq<byte>): seq<Event> {
    DataPackets(from, tid, Chunks(file), true) + [Complete(from, tid)]
  }

  /** Reads until the stream fails, which it does only on a read that comes up short. */
  method UploadWorker(from: int, tid: string, file: seq<byte>) returns (sent: seq<Event>)
    ensures sent == Upload(from, tid, file)
  {
    sent := [];
    var pos, good, firstChunk := 0, true, true;
    ghost var all := DataPackets(from, tid, Chunks(file), true);
    assert file[pos..] == file;
    while good
      invariant pos <= |file|
      invariant !good ==> pos == |file|
      invariant sent + DataPackets(from, tid, Chunks(file[pos..]), firstChunk) == all
      decreases |file| - pos, good
    {
      var bytesRead := if |file| - pos < CHUNK then |file| - pos else CHUNK;
      var chunk := file[pos..pos + bytesRead];
      good := bytesRead == CHUNK;
      if bytesRead > 0 {
        ghost var rest := file[pos..];
        assert chunk == rest[..bytesRead];
        assert file[pos + bytesRead..] == rest[bytesRead..];
        NextChunk(from, tid, rest, bytesRead, firstChunk);
        sent := sent + [Data(from, tid, firstChunk, chunk)];
        firstChunk := false;
      }
      pos := pos + bytesRead;
    }
    assert sent == all;
    sent := sent + [Complete(from, tid)];
  }

  lemma NextChunk(from: int, tid: string, rest: seq<byte>, n: nat, first: bool)
    requires 0 < n <= CHUNK && n <= |rest| && (n < CHUNK ==> n == |rest|)
    ensures DataPackets(from, tid, Chunks(rest), first)
         == [Data(from, tid, first, rest[..n])] + DataPackets(from, tid, Chunks(rest[n..]), false)
  {
    if |rest| <= CHUNK {
      assert rest[..n] == rest && rest[n..] == [];
      assert Chunks(rest) == [rest];
      assert Chunks(rest)[1..] == Chunks(rest[n..]);
    } else {
      assert Chunks(rest)[1..] == Chunks(rest[n..]);
    }
  }

  // ----- The receiver -----

  datatype Download = Download(filename: string, received: nat, path: string, isFirst: bool)

  datatype Receiver = Receiver(downloads: map<string, Download>, disk: map<string, seq<byte>>)

  /** A finished download: where it was written and how many bytes were counted. An ACK goes out with it. */
  datatype Done = Done(tid: string, path: string, bytes: nat)

  function Content(disk: map<string, seq<byte>>, path: string): seq<byte> {
    if path in disk then disk[path] else []
  }

  function Receive(c: Receiver, o: Out): Receiver {
    match o
    case OfferTo(_, tid, filename) => c.(downloads := c.downloads[tid := Download(filename, 0, "", true)])
    case DataTo(_, tid, isStart, chunk) =>
      if tid !in c.downloads then c
      else
        var d := c.downloads[tid];
        var first := isStart || d.isFirst;
        var path := if first then UniqueName(c.disk.Keys, d.filename) else d.path;
        var before := if first then [] else Content(c.disk, path);
        Receiver(c.downloads[tid := d.(received := d.received + |chunk|, path := path, isFirst := false)],
                 c.disk[path := before + chunk])
    case CompleteTo(_, tid) => c.(downloads := c.downloads - {tid})
    case _ => c
  }

  function Finishes(c: Receiver, o: Out): seq<Done> {
    if o.CompleteTo? && o.tid in c.downloads
    then [Done(o.tid, c.downloads[o.tid].path, c.downloads[o.tid].received)]
    else []
  }

  function ReceiveAll(c: Receiver, msgs: seq<Out>): Receiver
    decreases |msgs|
  {
    if msgs == [] then c else ReceiveAll(Receive(c, msgs[0]), msgs[1..])
  }

  function FinishesAll(c: Receiver, msgs: seq<Out>): seq<Done>
    decreases |msgs|
  {
    if msgs == [] then [] else Finishes(c, msgs[0]) + FinishesAll(Receive(c, msgs[0]), msgs[1..])
  }

  /** The client object that updates its downloads and its disk. */
  class ConnectionManager {
    var downloads: map<string, Download>
    var disk: map<string, seq<byte>>

    method HandleFileRequest(ghost to: int, tid: string, filename: string)
      modifies `downloads
      ensures Receiver(downloads, disk) == Receive(Receiver(old(downloads), disk), OfferTo(to, tid, filename))
    {
      downloads := downloads[tid := Download(filename, 0, "", true)];
    }

    /** Writes a chunk: over a fresh file, or at the end of one. */
    method WriteChunk(path: string, first: bool, chunk: seq<byte>)
      modifies `disk
      ensures disk == old(disk)[path := (if first then [] else Content(old(disk), path)) + chunk]
    {
      if first || path !in disk {
        disk := disk[path := []];
      }
      if chunk != [] {
        disk := disk[path := disk[path] + chunk];
      } else {
        assert disk[path] + chunk == disk[path];
      }
    }

    method HandleFileData(ghost to: int, tid: string, isStart: bool, chunk: seq<byte>)
      modifies this
      ensures Receiver(downloads, disk)
           == Receive(Receiver(old(downloads), old(disk)), DataTo(to, tid, isStart, chunk))
    {
      if tid !in downloads {
        return;
      }
      var d := downloads[tid];
      if isStart {
        d := d.(isFirst := true);
      }
      if d.isFirst {
        var path := GetUniqueFilename(disk.Keys, d.filename);
        d := d.(path := path, isFirst := false);
        WriteChunk(path, true, chunk);
      } else {
        WriteChunk(d.path, false, chunk);
      }
      d := d.(received := d.received + |chunk|);
      downloads := downloads[tid := d];
    }

    method HandleFileComplete(ghost to: int, tid: string) returns (done: seq<Done>)
      modifies `downloads
      ensures Receiver(downloads, disk) == Receive(Receiver(old(downloads), disk), CompleteTo(to, tid))
      ensures done == Finishes(Receiver(old(downloads), disk), CompleteTo(to, tid))
    {
      done := [];
      if tid in downloads {
        done := [Done(tid, downloads[tid].path, downloads[tid].received)];
      }
      downloads := downloads - {tid};
    }
  }

  // ----- Transfers do not disturb each other -----

  /** Downloads under way are written to different files. */
  ghost predicate Sound(c: Receiver) {
    && (forall t | t in c.downloads && !c.downloads[t].isFirst :: c.downloads[t].path in c.disk)
    && (forall t, u | t in c.downloads && u in c.downloads && t != u && !c.downloads[t].isFirst && !c.downloads[u].isFirst ::
          c.downloads[t].path != c.downloads[u].path)
  }

  /** What of a transfer has arrived. */
  ghost predicate Holds(c: Receiver, tid: string, got: seq<byte>) {
    && tid in c.downloads
    && c.downloads[tid].received == |got|
    && if c.downloads[tid].isFirst then got == []
       else c.downloads[tid].path in c.disk && c.disk[c.downloads[tid].path] == got
  }

  /** A file that no download is writing to. */
  ghost predicate Closed(c: Receiver, path: string) {
    path in c.disk && forall t | t in c.downloads && !c.downloads[t].isFirst :: c.downloads[t].path != path
  }

  lemma ReceiveSound(c: Receiver, o: Out)
    requires Sound(c)
    ensures Sound(Receive(c, o))
  {
    if o.DataTo? && o.tid in c.downloads {
      UniqueNameFresh(c.disk.Keys, c.downloads[o.tid].filename);
    }
  }

  lemma OtherKeeps(c: Receiver, o: Out, tid: string, got: seq<byte>)
    requires Sound(c) && Holds(c, tid, got) && o.tid != tid
    ensures Holds(Receive(c, o), tid, got) && Receive(c, o).downloads[tid] == c.downloads[tid]
  {
    if o.DataTo? && o.tid in c.downloads {
      UniqueNameFresh(c.disk.Keys, c.downloads[o.tid].filename);
    }
  }

  lemma OwnGrows(c: Receiver, to: int, tid: string, isStart: bool, chunk: seq<byte>, got: seq<byte>)
    requires Holds(c, tid, got) && (isStart ==> c.downloads[tid].isFirst)
    ensures Holds(Receive(c, DataTo(to, tid, isStart, chunk)), tid, got + chunk)
    ensures !Receive(c, DataTo(to, tid, isStart, chunk)).downloads[tid].isFirst
  {
  }

  lemma ClosedKept(c: Receiver, o: Out, path: string)
    requires Closed(c, path)
    ensures Closed(Receive(c, o), path) && Receive(c, o).disk[path] == c.disk[path]
  {
    if o.DataTo? && o.tid in c.downloads {
      UniqueNameFresh(c.disk.Keys, c.downloads[o.tid].filename);
    }
  }

  /** A file no download is writing to is never touched again, whatever arrives. */
  lemma {:induction false} ClosedFilesSafe(c: Receiver, msgs: seq<Out>, path: string)
    requires Closed(c, path)
    ensures Closed(ReceiveAll(c, msgs), path) && ReceiveAll(c, msgs).disk[path] == c.disk[path]
    decreases |msgs|
  {
    if msgs != [] {
      ClosedKept(c, msgs[0], path);
      ClosedFilesSafe(Receive(c, msgs[0]), msgs[1..], path);
    }
  }

  // ----- Sorting a stream by transfer -----

  function OwnMessage(o: Out, tid: string): seq<Out> {
    if o.tid == tid then [o] else []
  }

  function MessagesOf(msgs: seq<Out>, tid: string): seq<Out> {
    if msgs == [] then [] else OwnMessage(msgs[0], tid) + MessagesOf(msgs[1..], tid)
  }

  function DoneOf(done: seq<Done>, tid: string): seq<Done> {
    if done == [] then []
    else (if done[0].tid == tid then [done[0]] else []) + DoneOf(done[1..], tid)
  }

  /** What the receiver gets of a transfer from some chunk on. */
  function Incoming(to: int, tid: string, chunks: seq<seq<byte>>, first: bool): seq<Out> {
    if chunks == [] then [CompleteTo(to, tid)]
    else [DataTo(to, tid, first, chunks[0])] + Incoming(to, tid, chunks[1..], false)
  }

  lemma {:induction false} NoneDone(c: Receiver, msgs: seq<Out>, tid: string)
    requires MessagesOf(msgs, tid) == [] && tid !in c.downloads
    ensures DoneOf(FinishesAll(c, msgs), tid) == [] && tid !in ReceiveAll(c, msgs).downloads
    decreases |msgs|
  {
    if msgs != [] {
      NoneDone(Receive(c, msgs[0]), msgs[1..], tid);
      DoneOfStep(c, msgs[0], FinishesAll(Receive(c, msgs[0]), msgs[1..]), tid);
    }
  }

  lemma DoneOfStep(c: Receiver, o: Out, later: seq<Done>, tid: string)
    ensures DoneOf(Finishes(c, o) + later, tid) == DoneOf(Finishes(c, o), tid) + DoneOf(later, tid)
    ensures o.tid != tid ==> DoneOf(Finishes(c, o), tid) == []
    ensures o.tid == tid ==> DoneOf(Finishes(c, o), tid) == Finishes(c, o)
  {
    var f := Finishes(c, o);
    if f == [] {
      assert f + later == later;
    } else {
      assert (f + later)[1..] == later;
    }
  }

  /** Complete arrives: the file is done and stays as it is. */
  lemma Finished(c: Receiver, msgs: seq<Out>, to: int, tid: string, got: seq<byte>)
    requires Sound(c) && Holds(c, tid, got) && !c.downloads[tid].isFirst
    requires msgs != [] && msgs[0] == CompleteTo(to, tid) && MessagesOf(msgs[1..], tid) == []
    ensures var path := c.downloads[tid].path;
      && DoneOf(FinishesAll(c, msgs), tid) == [Done(tid, path, |got|)]
      && tid !in ReceiveAll(c, msgs).downloads
      && path in ReceiveAll(c, msgs).disk && ReceiveAll(c, msgs).disk[path] == got
  {
    var path, next := c.downloads[tid].path, Receive(c, msgs[0]);
    assert Closed(next, path);
    ClosedFilesSafe(next, msgs[1..], path);
    NoneDone(next, msgs[1..], tid);
    DoneOfStep(c, msgs[0], FinishesAll(next, msgs[1..]), tid);
  }

  /** The next message of the transfer is the one that was to come. */
  lemma NextMessage(msgs: seq<Out>, to: int, tid: string, chunks: seq<seq<byte>>, first: bool)
    requires MessagesOf(msgs, tid) == Incoming(to, tid, chunks, first)
    ensures msgs != []
    ensures msgs[0].tid != tid ==> MessagesOf(msgs[1..], tid) == Incoming(to, tid, chunks, first)
    ensures msgs[0].tid == tid && chunks == [] ==> msgs[0] == CompleteTo(to, tid) && MessagesOf(msgs[1..], tid) == []
    ensures msgs[0].tid == tid && chunks != [] ==>
      msgs[0] == DataTo(to, tid, first, chunks[0]) && MessagesOf(msgs[1..], tid) == Incoming(to, tid, chunks[1..], false)
  {
    var m, n := MessagesOf(msgs, tid), Incoming(to, tid, chunks, first);
    assert m[0] == n[0] && m[1..] == n[1..];
  }

  /** However the messages of other transfers are mixed in, the chunks come together again. */
  lemma {:induction false} Arrives(c: Receiver, msgs: seq<Out>, to: int, tid: string, got: seq<byte>,
                                   chunks: seq<seq<byte>>, first: bool)
    returns (path: string)
    requires Sound(c) && Holds(c, tid, got)
    requires first ==> c.downloads[tid].isFirst
    requires chunks == [] ==> !c.downloads[tid].isFirst
    requires MessagesOf(msgs, tid) == Incoming(to, tid, chunks, first)
    ensures DoneOf(FinishesAll(c, msgs), tid) == [Done(tid, path, |got + Flatten(chunks)|)]
    ensures tid !in ReceiveAll(c, msgs).downloads
    ensures path in ReceiveAll(c, msgs).disk && ReceiveAll(c, msgs).disk[path] == got + Flatten(chunks)
    decreases |msgs|
  {
    NextMessage(msgs, to, tid, chunks, first);
    var o := msgs[0];
    if o.tid == tid && chunks == [] {
      assert got + Flatten(chunks) == got;
      path := c.downloads[tid].path;
      Finished(c, msgs, to, tid, got);
    } else {
      ReceiveSound(c, o);
      if o.tid != tid {
        OtherKeeps(c, o, tid, got);
        path := Arrives(Receive(c, o), msgs[1..], to, tid, got, chunks, first);
      } else {
        OwnGrows(c, to, tid, first, chunks[0], got);
        FlattenFirst(got, chunks);
        path := Arrives(Receive(c, o), msgs[1..], to, tid, got + chunks[0], chunks[1..], false);
      }
      NotDoneYet(c, msgs, tid);
    }
  }

  lemma FlattenFirst(got: seq<byte>, chunks: seq<seq<byte>>)
    requires chunks != []
    ensures got + Flatten(chunks) == got + chunks[0] + Flatten(chunks[1..])
  {
    assert got + (chunks[0] + Flatten(chunks[1..])) == (got + chunks[0]) + Flatten(chunks[1..]);
  }

  /** A message that does not end the transfer leaves what is done of it to the rest. */
  lemma NotDoneYet(c: Receiver, msgs: seq<Out>, tid: string)
    requires msgs != [] && (msgs[0].tid != tid || !msgs[0].CompleteTo?)
    ensures DoneOf(FinishesAll(c, msgs), tid) == DoneOf(FinishesAll(Receive(c, msgs[0]), msgs[1..]), tid)
    ensures ReceiveAll(c, msgs) == ReceiveAll(Receive(c, msgs[0]), msgs[1..])
  {
    var later := FinishesAll(Receive(c, msgs[0]), msgs[1..]);
    DoneOfStep(c, msgs[0], later, tid);
    assert [] + DoneOf(later, tid) == DoneOf(later, tid);
  }

  // ----- The relay in between -----

  /** What one step of the relay sends to a receiver's end of transfers. */
  function Delivered(s: Table, i: Input, to: int): (r: seq<Out>)
    ensures |r| <= 1
    ensures forall o :: o in r <==> o in Sent(s, i) && o.to == to && (o.OfferTo? || o.DataTo? || o.CompleteTo?)
  {
    match i.event
    case Request(_, tid, receiver, filename, _) =>
      if Opens(i) && receiver.value == to then [OfferTo(to, tid, filename)] else []
    case Data(_, tid, isStart, chunk) =>
      if TakesData(s, i.event) && s[tid].receiver == to && to in i.online then [DataTo(to, tid, isStart, chunk)] else []
    case Complete(from, tid) =>
      if tid in s && s[tid].sender == from && s[tid].receiver == to && to in i.online then [CompleteTo(to, tid)] else []
    case _ => []
  }

  function DeliverAll(s: Table, inputs: seq<Input>, to: int): seq<Out>
    decreases |inputs|
  {
    if inputs == [] then [] else Delivered(s, inputs[0], to) + DeliverAll(Step(s, inputs[0]), inputs[1..], to)
  }

  function TableAfter(s: Table, inputs: seq<Input>): Table
    decreases |inputs|
  {
    if inputs == [] then s else TableAfter(Step(s, inputs[0]), inputs[1..])
  }

  predicate OnTransfer(e: Event, tid: string) {
    !e.Cleanup? && e.tid == tid
  }

  /** The packets on this transfer are the given ones, in order, with the receiver online; the sweeps in
      between find it fresh. Everything else is up to the other clients. */
  predicate Undisturbed(s: Table, inputs: seq<Input>, tid: string, packets: seq<Event>)
    requires tid in s
    decreases |inputs|
  {
    if inputs == [] then packets == []
    else
      var i := inputs[0];
      if OnTransfer(i.event, tid) then
        && packets != [] && i.event == packets[0] && (i.event.Data? || i.event.Complete?) && s[tid].receiver in i.online
        && Undisturbed(Step(s, i), inputs[1..], tid, packets[1..])
      else
        && (i.event.Cleanup? ==> !Expired(s[tid], i.now))
        && Undisturbed(Step(s, i), inputs[1..], tid, packets)
  }

  lemma {:induction false} MessagesOfConcat(a: seq<Out>, b: seq<Out>, tid: string)
    ensures MessagesOf(a + b, tid) == MessagesOf(a, tid) + MessagesOf(b, tid)
    decreases |a|
  {
    if a == [] {
      assert a + b == b;
    } else {
      var own := OwnMessage(a[0], tid);
      assert (a + b)[1..] == a[1..] + b;
      MessagesOfConcat(a[1..], b, tid);
      assert own + (MessagesOf(a[1..], tid) + MessagesOf(b, tid)) == (own + MessagesOf(a[1..], tid)) + MessagesOf(b, tid);
    }
  }

  /** The transfer is open between the two, and accepted. */
  predicate Between(s: Table, tid: string, from: int, to: int) {
    tid in s && s[tid].sender == from && s[tid].receiver == to
  }

  /** Other clients' packets and sweeps that find it fresh leave a transfer alone. */
  lemma OthersLeave(s: Table, i: Input, tid: string, to: int)
    requires tid in s && !OnTransfer(i.event, tid) && (i.event.Cleanup? ==> !Expired(s[tid], i.now))
    ensures tid in Step(s, i) && Step(s, i)[tid] == s[tid]
    ensures MessagesOf(Delivered(s, i, to), tid) == []
  {
  }

  lemma {:induction false} RelaysNothingMore(s: Table, inputs: seq<Input>, from: int, to: int, tid: string)
    requires Between(s, tid, from, to) && Undisturbed(s, inputs, tid, [])
    ensures MessagesOf(DeliverAll(s, inputs, to), tid) == []
    ensures Between(TableAfter(s, inputs), tid, from, to)
    decreases |inputs|
  {
    if inputs != [] {
      OthersLeave(s, inputs[0], tid, to);
      RelaysNothingMore(Step(s, inputs[0]), inputs[1..], from, to, tid);
      MessagesOfConcat(Delivered(s, inputs[0], to), DeliverAll(Step(s, inputs[0]), inputs[1..], to), tid);
    }
  }

  /** The packets of an upload from some chunk on. */
  function Outgoing(from: int, tid: string, chunks: seq<seq<byte>>, first: bool): seq<Event> {
    DataPackets(from, tid, chunks, first) + [Complete(from, tid)]
  }

  lemma OutgoingHead(from: int, tid: string, chunks: seq<seq<byte>>, first: bool)
    ensures chunks == [] ==> Outgoing(from, tid, chunks, first) == [Complete(from, tid)]
    ensures chunks != [] ==>
      Outgoing(from, tid, chunks, first) == [Data(from, tid, first, chunks[0])] + Outgoing(from, tid, chunks[1..], false)
  {
  }

  /** Among all other traffic, the receiver is sent exactly the sender's chunks, in order, and the end. */
  lemma {:induction false} Relays(s: Table, inputs: seq<Input>, from: int, to: int, tid: string,
                                  chunks: seq<seq<byte>>, first: bool)
    requires Between(s, tid, from, to) && s[tid].status != Pending
    requires Undisturbed(s, inputs, tid, Outgoing(from, tid, chunks, first))
    ensures MessagesOf(DeliverAll(s, inputs, to), tid) == Incoming(to, tid, chunks, first)
    ensures Between(TableAfter(s, inputs), tid, from, to)
    decreases |inputs|
  {
    var packets := Outgoing(from, tid, chunks, first);
    OutgoingHead(from, tid, chunks, first);
    var i, next := inputs[0], Step(s, inputs[0]);
    MessagesOfConcat(Delivered(s, i, to), DeliverAll(next, inputs[1..], to), tid);
    if !OnTransfer(i.event, tid) {
      OthersLeave(s, i, tid, to);
      Relays(next, inputs[1..], from, to, tid, chunks, first);
    } else if chunks == [] {
      assert packets[1..] == [];
      RelaysNothingMore(next, inputs[1..], from, to, tid);
      assert MessagesOf(Delivered(s, i, to), tid) == [CompleteTo(to, tid)];
    } else {
      assert packets[1..] == Outgoing(from, tid, chunks[1..], false);
      Relays(next, inputs[1..], from, to, tid, chunks[1..], false);
      assert MessagesOf(Delivered(s, i, to), tid) == [DataTo(to, tid, first, chunks[0])];
    }
  }

  // ----- From end to end -----

  /** A file that is uploaded over an accepted transfer arrives byte for byte, is counted in full, and is
      acknowledged to the sender once. */
  lemma FileArrives(s: Table, inputs: seq<Input>, from: int, to: int, tid: string, file: seq<byte>, c: Receiver, ack: Input)
    returns (path: string)
    requires Between(s, tid, from, to) && s[tid].status != Pending
    requires Undisturbed(s, inputs, tid, Upload(from, tid, file)) && file != []
    requires Sound(c) && tid in c.downloads && c.downloads[tid].isFirst && c.downloads[tid].received == 0
    requires ack.event == Ack(to, tid) && from in ack.online
    ensures var msgs := DeliverAll(s, inputs, to);
      && DoneOf(FinishesAll(c, msgs), tid) == [Done(tid, path, |file|)]
      && path in ReceiveAll(c, msgs).disk && ReceiveAll(c, msgs).disk[path] == file
    ensures var t := TableAfter(s, inputs);
      Sent(t, ack) == {AckTo(from, tid)} && tid !in Step(t, ack) && Sent(Step(t, ack), ack) == {}
  {
    ChunksJoin(file);
    assert Upload(from, tid, file) == Outgoing(from, tid, Chunks(file), true);
    Relays(s, inputs, from, to, tid, Chunks(file), true);
    assert [] + Flatten(Chunks(file)) == file;
    path := Arrives(c, DeliverAll(s, inputs, to), to, tid, [], Chunks(file), true);
  }
}
