/** aesdsocket.c: the worker thread's work while it holds the server's mutex. */
module Worker {
  import opened Bytes
  import opened PacketLog
  import RingModel
  import opened DeviceModel
  import opened DeviceRefinement
  import opened ReadModel
  import opened SeekModel
  import opened CharDevice
  import opened Service

  /** The bytes a connection may still write. */
  function Volume(conn: seq<Chunk>): nat
    decreases |conn|
  {
    if conn == [] then 0
    else (if conn[0].Data? then |conn[0].op.data| else 0) + Volume(conn[1..])
  }

  /** Everything the device will hold while serving stays countable in a size_t. */
  predicate Roomy(lg: Log, pos: nat, conn: seq<Chunk>) {
    && |Content(lg)| + |lg.pending| + Volume(conn) < SIZE_MAX
    && pos + Volume(conn) < SIZE_MAX
  }

  lemma TakeRoomy(lg: Log, pos: nat, seeked: bool, conn: seq<Chunk>)
    requires LegalConn(conn) && conn != [] && Roomy(lg, pos, conn)
    requires Take(lg, pos, seeked, conn[0]).Received?
    ensures var r := Take(lg, pos, seeked, conn[0]); Roomy(r.lg, r.pos, conn[1..])
  {
    if conn[0].Data? {
      ContentGrowth(lg, conn[0].op.data);
    } else {
      SeekInBounds(lg.packets, conn[0].writecmd, conn[0].offset);
    }
  }

  lemma ContentGrowth(lg: Log, bytes: seq<Byte>)
    ensures |Content(Accept(lg, bytes))| + |Accept(lg, bytes).pending| <= |Content(lg)| + |lg.pending| + |bytes|
  {
    var tail := lg.pending + bytes;
    if Terminated(tail) {
      if |lg.packets| >= CAPACITY {
        EvictionShift(lg, bytes);
      } else {
        RetainedAppend(lg.packets, tail);
        FlattenAppend(Retained(lg.packets), [tail]);
        FlattenOne(tail);
      }
    }
  }

  /** The device is idle and holds what the log says. */
  ghost predicate Serving(dev: AesdDev, lg: Log)
    reads dev, dev.buffer, dev.buffer.entry
  {
    dev.Ready() && dev.lost == {} && Refines(dev.State(), lg)
  }

  /**
   The process stopped. A fault apart, the device holds what the log says, unless a
   refused request cost it the block of the tail.
   */
  ghost predicate LeftBehind(dev: AesdDev, reason: Reason, lg: Log)
    reads dev, dev.buffer, dev.buffer.entry
  {
    reason == Exit && dev.lost == {} ==> Refines(dev.State(), lg)
  }

  method HandleSeek(dev: AesdDev, filp: File, writecmd: nat, offset: nat, ghost lg: Log)
    returns (stopped: Option<Reason>)
    requires Serving(dev, lg)
    modifies dev, filp
    ensures match SeekPosition(lg.packets, writecmd, offset)
            case WildUnlock => stopped == Some(Fault)
            case Invalid => stopped == Some(Exit) && Refines(dev.State(), lg)
            case Sought(p) => stopped == None && filp.fPos == p && Serving(dev, lg)
  {
    SeekRefines(dev.State(), lg, writecmd, offset);
    var sought := dev.AdjustFileOffset(filp, writecmd, offset);
    stopped := match sought case WildUnlock => Some(Fault) case Invalid => Some(Exit) case Sought(_) => None;
  }

  method HandleData(dev: AesdDev, filp: File, op: WriteOp, ghost lg: Log)
    returns (stopped: Option<Reason>)
    requires Serving(dev, lg) && LegalChunk(Data(op))
    requires |lg.pending| + |op.data| < SIZE_MOD
    modifies dev, dev.buffer, dev.buffer.entry, filp
    ensures match Take(lg, 0, false, Data(op))
            case Stopped(reason, lg') => stopped == Some(reason) && LeftBehind(dev, reason, lg')
            case Received(lg', _, _) => stopped == None && filp.fPos == old(filp.fPos) + |op.data| && Serving(dev, lg')
  {
    TakeWrite(dev.State(), lg, op);
    var written := dev.Write(filp, op);
    stopped := if written == Wrote(|op.data|) then None else Some(if written.Stuck? then Fault else Exit);
  }

  /** One turn of the receive loop: a seek command goes to ioctl, anything else to write. */
  method HandleChunk(dev: AesdDev, filp: File, isIoctl: bool, chunk: Chunk, ghost lg: Log)
    returns (stopped: Option<Reason>)
    requires Serving(dev, lg) && LegalChunk(chunk)
    requires chunk.Data? ==> |lg.pending| + |chunk.op.data| < SIZE_MOD
    modifies dev, dev.buffer, dev.buffer.entry, filp
    ensures match Take(lg, old(filp.fPos), isIoctl, chunk)
            case Stopped(reason, lg') => stopped == Some(reason) && LeftBehind(dev, reason, lg')
            case Received(lg', pos, seeked) =>
              stopped == None && filp.fPos == pos && seeked == (isIoctl || chunk.SeekTo?) && Serving(dev, lg')
  {
    match chunk {
      case SeekTo(writecmd, offset, _) => stopped := HandleSeek(dev, filp, writecmd, offset, lg);
      case Data(op) => stopped := HandleData(dev, filp, op, lg);
    }
  }

  /** The device is as it was in state d, but for the position noted last. */
  ghost predicate OnlyNoted(dev: AesdDev, d: Dev)
    reads dev, dev.buffer, dev.buffer.entry
  {
    dev.Ready() && dev.lost == {} && dev.State() == NoteStep(d, dev.nextReadPosition)
  }

  /** A device in state d shows the packets ps to its readers. */
  ghost predicate Shows(d: Dev, ps: seq<Packet>) {
    Safe(d, {}) && RingModel.Shaped(d.ring) && LiveHolds(d.ring, d.heap, ps) && |Flatten(ps)| < SIZE_MAX
  }

  lemma ShownRead(d: Dev, ps: seq<Packet>, fpos: nat, copyOk: bool)
    requires Shows(d, ps)
    ensures RingModel.Total(d.ring) < SIZE_MOD && RingModel.Shaped(NoteStep(d, fpos).ring)
    ensures var f := FetchStep(NoteStep(d, fpos), fpos, BUF_SIZE, copyOk);
            var result := ReadOnce(ps, fpos, BUF_SIZE, copyOk);
            && f.result == result
            && f.fpos == fpos + Gain(result)
            && f.dev == NoteStep(d, f.dev.nextRead)
  {
    LiveSizes(d.ring, d.heap, ps);
    FetchIsFrom(NoteStep(d, fpos), ps, fpos, BUF_SIZE, copyOk);
  }

  /** One turn of the send loop. */
  method ReadSome(dev: AesdDev, filp: File, copyOk: bool, ghost d: Dev, ghost ps: seq<Packet>)
    returns (result: ReadResult)
    requires OnlyNoted(dev, d) && Shows(d, ps) && filp.fPos < SIZE_MAX
    modifies dev, filp
    ensures OnlyNoted(dev, d)
    ensures result == ReadOnce(ps, old(filp.fPos), BUF_SIZE, copyOk)
    ensures filp.fPos == old(filp.fPos) + Gain(result)
  {
    ShownRead(d, ps, filp.fPos, copyOk);
    result := dev.Read(filp, BUF_SIZE, copyOk);
  }

  /** What one read takes off the front of what is left to deliver. */
  lemma DeliverNext(ps: seq<Packet>, pos: nat, sent: seq<Byte>, net: seq<Delivery>)
    ensures var parts, result := Drain(ps, pos, BUF_SIZE), ReadOnce(ps, pos, BUF_SIZE, Next(net).copyOk);
            if Gain(result) == 0 then
              && (result == BadAddress || result == Got([]))
              && Deliver(parts, net) == Sent([])
              && (parts == [] || !Complete(parts, net))
            else
              var rest := Drain(ps, pos + Gain(result), BUF_SIZE);
              && result.Got? && result.bytes != []
              && pos + Gain(result) <= |Flatten(ps)|
              && |parts| == 1 + |rest|
              && Joined(Sent(sent), Deliver(parts, net))
                 == Joined(Joined(Sent(sent), SendOne(result.bytes, Next(net).taken)), Deliver(rest, Later(net)))
              && (Complete(parts, net) ==> Next(net).taken.Some? && Complete(rest, Later(net)))
  {
    DrainCons(ps, pos, BUF_SIZE);
    var result := ReadOnce(ps, pos, BUF_SIZE, Next(net).copyOk);
    if Gain(result) != 0 {
      var rest := Drain(ps, pos + Gain(result), BUF_SIZE);
      assert ([result.bytes] + rest)[1..] == rest;
      JoinedTogether(Sent(sent), SendOne(result.bytes, Next(net).taken), Deliver(rest, Later(net)));
    }
  }

  /**
   The send loop: read until a read returns nothing or fails, and send what it returned.
   With every delivery complete it takes exactly the reads of a drain and one empty one.
   */
  method SendContent(dev: AesdDev, filp: File, net: seq<Delivery>, ghost d: Dev, ghost ps: seq<Packet>)
    returns (sent: seq<Byte>, readCalls: nat, broken: bool)
    requires OnlyNoted(dev, d) && Shows(d, ps) && filp.fPos < SIZE_MAX
    modifies dev, filp
    ensures OnlyNoted(dev, d)
    ensures Deliver(Drain(ps, old(filp.fPos), BUF_SIZE), net) == if broken then Broken else Sent(sent)
    ensures readCalls <= |Drain(ps, old(filp.fPos), BUF_SIZE)| + 1
    ensures Complete(Drain(ps, old(filp.fPos), BUF_SIZE), net) ==>
              readCalls == |Drain(ps, old(filp.fPos), BUF_SIZE)| + 1
  {
    hide Shows, OnlyNoted, Drain, Deliver, Complete, ReadOnce, Flatten;
    sent, readCalls, broken := [], 0, false;
    var left := net;
    ghost var parts := Drain(ps, filp.fPos, BUF_SIZE);
    ghost var all := Deliver(parts, net);
    ghost var before := Sent([]);
    FlattenShown(d, ps);
    NothingSent(all);
    while true
      invariant OnlyNoted(dev, d) && filp.fPos < SIZE_MAX
      invariant readCalls + |Drain(ps, filp.fPos, BUF_SIZE)| == |parts|
      invariant Joined(Sent(sent), Deliver(Drain(ps, filp.fPos, BUF_SIZE), left)) == all
      invariant Complete(parts, net) ==> Complete(Drain(ps, filp.fPos, BUF_SIZE), left)
      decreases |parts| - readCalls
    {
      DeliverNext(ps, filp.fPos, sent, left);
      var delivery := Next(left);
      var result := ReadSome(dev, filp, delivery.copyOk, d, ps);
      readCalls := readCalls + 1;
      if result == BadAddress || result == Got([]) {
        assert sent + [] == sent;
        return;
      }
      if delivery.taken == None {
        broken := true;
        return;
      }
      sent := sent + result.bytes[..Min(delivery.taken.value, |result.bytes|)];
      left := Later(left);
    }
  }

  lemma FlattenShown(d: Dev, ps: seq<Packet>)
    requires Shows(d, ps)
    ensures |Flatten(ps)| < SIZE_MAX
  {
  }

  lemma NothingSent(a: Sending)
    ensures Joined(Sent([]), a) == a
  {
    if a.Sent? {
      assert [] + a.bytes == a.bytes;
    }
  }

  /** The receive loop: until a chunk ends in a newline or the client sends no more. */
  method ReceiveAll(dev: AesdDev, filp: File, conn: seq<Chunk>, ghost lg: Log)
    returns (stopped: Option<Reason>, isIoctl: bool, ghost after: Log)
    requires Serving(dev, lg) && LegalConn(conn) && Roomy(lg, filp.fPos, conn)
    modifies dev, dev.buffer, dev.buffer.entry, filp
    ensures match Receive(lg, old(filp.fPos), false, conn)
            case Stopped(reason, lg') => stopped == Some(reason) && LeftBehind(dev, reason, lg')
            case Received(lg', pos, seeked) =>
              && stopped == None && after == lg' && filp.fPos == pos && isIoctl == seeked
              && Serving(dev, after) && Roomy(after, pos, [])
  {
    stopped, isIoctl, after := None, false, lg;
    var i := 0;
    ReceiveNothing(lg, filp.fPos, conn);
    while i < |conn|
      invariant 0 <= i <= |conn|
      invariant Serving(dev, after) && Roomy(after, filp.fPos, conn[i..]) && Roomy(after, filp.fPos, [])
      invariant Receive(lg, old(filp.fPos), false, conn) == Receive(after, filp.fPos, isIoctl, conn[i..])
      invariant stopped == None
    {
      var chunk := conn[i];
      ghost var taken := Take(after, filp.fPos, isIoctl, chunk);
      ReceiveStep(after, filp.fPos, isIoctl, conn, i);
      stopped := HandleChunk(dev, filp, isIoctl, chunk, after);
      if stopped.Some? {
        return;
      }
      after := taken.lg;
      isIoctl := isIoctl || chunk.SeekTo?;
      i := i + 1;
      if EndsLine(chunk) {
        return;
      }
    }
    ReceiveNothing(after, filp.fPos, conn[i..]);
  }

  lemma ReceiveNothing(lg: Log, pos: nat, conn: seq<Chunk>)
    ensures conn[0..] == conn
    ensures Roomy(lg, pos, conn) ==> Roomy(lg, pos, [])
    ensures conn == [] ==> forall seeked :: Receive(lg, pos, seeked, conn) == Received(lg, pos, seeked)
  {
  }

  lemma ReceiveStep(lg: Log, pos: nat, seeked: bool, conn: seq<Chunk>, i: nat)
    requires LegalConn(conn) && i < |conn| && Roomy(lg, pos, conn[i..])
    ensures conn[i].Data? ==> |lg.pending| + |conn[i].op.data| < SIZE_MOD
    ensures var taken := Take(lg, pos, seeked, conn[i]);
            && (taken.Received? ==> Roomy(taken.lg, taken.pos, conn[i + 1..]) && Roomy(taken.lg, taken.pos, []))
            && Receive(lg, pos, seeked, conn[i..]) ==
               (if taken.Stopped? || EndsLine(conn[i]) then taken
                else Receive(taken.lg, taken.pos, taken.seeked, conn[i + 1..]))
  {
    var taken := Take(lg, pos, seeked, conn[i]);
    assert conn[i..][0] == conn[i] && conn[i..][1..] == conn[i + 1..];
    if taken.Received? {
      TakeRoomy(lg, pos, seeked, conn[i..]);
    }
  }

  /**
   sendAndReceiveThread between taking and releasing g_mutex: open, receive and write or
   seek until a line ends, rewind unless a seek was made, read and send until a read
   returns nothing, close. The device's log is a ghost argument; the method does to it
   what Serve says. When everything is delivered completely, it takes exactly the reads
   that draining the content needs.
   */
  method SendAndReceive(dev: AesdDev, client: Client, ghost lg: Log)
    returns (stopped: Option<Reason>, sent: seq<Byte>, readCalls: nat, ghost after: Log)
    requires Serving(dev, lg) && LegalConn(client.chunks) && Roomy(lg, 0, client.chunks)
    modifies dev, dev.buffer, dev.buffer.entry
    ensures match Serve(lg, client)
            case Down(reason, lg') => stopped == Some(reason) && LeftBehind(dev, reason, lg')
            case Served(lg', reply) => stopped == None && sent == reply && after == lg' && Serving(dev, after)
    ensures stopped == Some(Exit) && dev.lost == {} ==> Refines(dev.State(), Serve(lg, client).lg)
    ensures stopped.None? ==>
              var received := Receive(lg, 0, false, client.chunks);
              && received.Received?
              && var parts := Drain(Retained(after.packets), ReadFrom(received), BUF_SIZE);
                 readCalls <= |parts| + 1 && (Complete(parts, client.net) ==> readCalls == |parts| + 1)
  {
    hide Refines, Receive, Drain, Deliver, Complete, Shows, LegalConn;
    var filp := new File();
    var isIoctl, broken;
    sent, readCalls := [], 0;
    stopped, isIoctl, after := ReceiveAll(dev, filp, client.chunks, lg);
    if stopped.Some? {
      return;
    }
    if !isIoctl {
      var _ := dev.Llseek(filp, 0, Set);
    }
    ghost var d := dev.State();
    ServingShows(dev, after);
    sent, readCalls, broken := SendContent(dev, filp, client.net, d, Retained(after.packets));
    NoteRefines(d, after, dev.nextReadPosition);
    ghost var received := Receive(lg, 0, false, client.chunks);
    NothingSent(Deliver(Drain(Retained(after.packets), ReadFrom(received), BUF_SIZE), client.net));
    if broken {
      stopped := Some(Exit);
    }
  }

  lemma ServingShows(dev: AesdDev, lg: Log)
    requires Serving(dev, lg) && |Content(lg)| < SIZE_MAX
    ensures OnlyNoted(dev, dev.State()) && Shows(dev.State(), Retained(lg.packets))
  {
  }

  /** The driver's answer to a write is the one the service model expects. */
  lemma TakeWrite(d: Dev, lg: Log, op: WriteOp)
    requires Refines(d, lg) && LegalChunk(Data(op))
    ensures var (d', result) := WriteStep(d, op);
            && result != Stuck
            && (Loses(d, op) == {} ==> Refines(d', LogStep(lg, op)))
            && match Take(lg, 0, false, Data(op))
               case Stopped(reason, lg') => reason == Exit && result != Wrote(|op.data|) && lg' == LogStep(lg, op)
               case Received(lg', _, _) => result == Wrote(|op.data|) && lg' == LogStep(lg, op) && Refines(d', lg')
  {
    if !Benign(lg, d.working.buffptr != RingModel.NULL, op) {
      NotBenign(d, op, lg);
    } else {
      WriteRefines(d, op, lg);
    }
    if Taken(op) {
      TakenWhole(lg, op);
    }
  }

  lemma TakenWhole(lg: Log, op: WriteOp)
    requires LegalChunk(Data(op)) && Taken(op)
    ensures LogStep(lg, op) == Accept(lg, op.data)
  {
    assert Accepted(op) == op.data;
  }
}
