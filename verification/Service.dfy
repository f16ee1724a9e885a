/** What serving one connection means, over the packet log alone. */
module Service {
  import opened Bytes
  import opened PacketLog
  import DeviceModel
  import SeekModel
  import Allocator
  import DeviceRefinement

  // The size of the worker's receive and read buffers.
  const BUF_SIZE: nat := 1024

  /** One received chunk: bytes to write, or a seek command that may end in a newline. */
  datatype Chunk =
    | Data(op: DeviceModel.WriteOp)
    | SeekTo(writecmd: nat, offset: nat, newline: bool)

  /**
   What becomes of one read that has something to return: whether it could be copied
   into the worker's buffer, and how many of its bytes a send took. No number means
   that the send failed.
   */
  datatype Delivery = Delivery(copyOk: bool, taken: Option<nat>)

  const COMPLETE := Delivery(true, Some(BUF_SIZE))

  /** What a client sends, and what becomes of its reply; reads beyond the list are delivered completely. */
  datatype Client = Client(chunks: seq<Chunk>, net: seq<Delivery>)

  predicate LegalChunk(c: Chunk) {
    c.Data? ==> DeviceModel.Legal(c.op) && 0 < |c.op.data| <= BUF_SIZE
  }

  predicate LegalConn(conn: seq<Chunk>) {
    forall i :: 0 <= i < |conn| ==> LegalChunk(conn[i])
  }

  /** Exit: a failed call makes the process exit. Fault: the kernel faults. */
  datatype Reason = Exit | Fault

  // ----- receiving -----

  datatype Outcome = Received(lg: Log, pos: nat, seeked: bool) | Stopped(reason: Reason, lg: Log)

  predicate EndsLine(c: Chunk)
    requires LegalChunk(c)
  {
    match c
    case Data(op) => op.data[|op.data| - 1] == NEWLINE
    case SeekTo(_, _, newline) => newline
  }

  /** All of the chunk's bytes get into the device. */
  predicate Taken(op: DeviceModel.WriteOp) {
    !op.alloc.Refused? && op.copied == |op.data|
  }

  /** The effect of one received chunk; pos is the file position, which writes advance too. */
  function Take(lg: Log, pos: nat, seeked: bool, c: Chunk): Outcome
    requires LegalChunk(c)
  {
    match c
    case Data(op) =>
      if Taken(op) then Received(Accept(lg, op.data), pos + |op.data|, seeked)
      else Stopped(Exit, DeviceRefinement.LogStep(lg, op))
    case SeekTo(writecmd, offset, _) =>
      match SeekModel.SeekPosition(lg.packets, writecmd, offset)
      case WildUnlock => Stopped(Fault, lg)
      case Invalid => Stopped(Exit, lg)
      case Sought(p) => Received(lg, p, true)
  }

  /** Receive until a chunk ends in a newline or the client sends no more. */
  function Receive(lg: Log, pos: nat, seeked: bool, conn: seq<Chunk>): Outcome
    requires LegalConn(conn)
    decreases |conn|
  {
    if conn == [] then
      Received(lg, pos, seeked)
    else
      var taken := Take(lg, pos, seeked, conn[0]);
      if taken.Stopped? || EndsLine(conn[0]) then taken
      else Receive(taken.lg, taken.pos, taken.seeked, conn[1..])
  }

  // ----- sending -----

  datatype Sending = Sent(bytes: seq<Byte>) | Broken

  function Joined(a: Sending, b: Sending): Sending {
    if a.Broken? || b.Broken? then Broken else Sent(a.bytes + b.bytes)
  }

  lemma JoinedTogether(a: Sending, b: Sending, c: Sending)
    ensures Joined(Joined(a, b), c) == Joined(a, Joined(b, c))
  {
    if a.Sent? && b.Sent? && c.Sent? {
      Reassociate(a.bytes, b.bytes, c.bytes);
    }
  }

  function Next(net: seq<Delivery>): Delivery {
    if net == [] then COMPLETE else net[0]
  }

  function Later(net: seq<Delivery>): seq<Delivery> {
    if net == [] then [] else net[1..]
  }

  /** A send that takes fewer bytes than it is given is not repeated. */
  function SendOne(bytes: seq<Byte>, taken: Option<nat>): Sending {
    match taken
    case None => Broken
    case Some(n) => Sent(bytes[..Min(n, |bytes|)])
  }

  /** The send loop over the reads of a drain: a failed read ends it like an empty one. */
  function Deliver(parts: seq<seq<Byte>>, net: seq<Delivery>): Sending
    decreases |parts|
  {
    if parts == [] || !Next(net).copyOk then Sent([])
    else Joined(SendOne(parts[0], Next(net).taken), Deliver(parts[1..], Later(net)))
  }

  /** lg is the log the connection leaves. */
  datatype ServeResult = Served(lg: Log, reply: seq<Byte>) | Down(reason: Reason, lg: Log)

  /** The reply that starts with what was sent already and goes on from a position. */
  function Reply(lg: Log, before: Sending, pos: nat, net: seq<Delivery>): ServeResult {
    match Joined(before, Deliver(Drain(Retained(lg.packets), pos, BUF_SIZE), net))
    case Broken => Down(Exit, lg)
    case Sent(bytes) => Served(lg, bytes)
  }

  function ReadFrom(received: Outcome): nat
    requires received.Received?
  {
    if received.seeked then received.pos else 0
  }

  /** What is left of serving once the receive loop has ended. */
  function Answer(received: Outcome, net: seq<Delivery>): ServeResult {
    match received
    case Stopped(reason, lg) => Down(reason, lg)
    case Received(lg, _, _) => Reply(lg, Sent([]), ReadFrom(received), net)
  }

  /** One whole connection: the log it leaves and the bytes sent back. */
  function Serve(lg: Log, client: Client): ServeResult
    requires LegalConn(client.chunks)
  {
    Answer(Receive(lg, 0, false, client.chunks), client.net)
  }

  // ----- complete replies -----

  /** Every read of the list is copied and its send takes all of it. */
  predicate Complete(parts: seq<seq<Byte>>, net: seq<Delivery>)
    decreases |parts|
  {
    parts == [] ||
    (Next(net).copyOk && Next(net).taken.Some? && Next(net).taken.value >= |parts[0]|
     && Complete(parts[1..], Later(net)))
  }

  lemma {:induction false} DeliverAtMost(parts: seq<seq<Byte>>, net: seq<Delivery>)
    requires Deliver(parts, net).Sent?
    ensures |Deliver(parts, net).bytes| <= |Flatten(parts)|
    decreases |parts|
  {
    if parts != [] && Next(net).copyOk {
      DeliverAtMost(parts[1..], Later(net));
    }
  }

  /** A reply is sent whole exactly when no copy failed and no send failed or fell short. */
  lemma {:induction false} DeliverWhole(parts: seq<seq<Byte>>, net: seq<Delivery>)
    requires forall i :: 0 <= i < |parts| ==> parts[i] != []
    ensures Deliver(parts, net) == Sent(Flatten(parts)) <==> Complete(parts, net)
    decreases |parts|
  {
    if parts != [] && Next(net).copyOk && Next(net).taken.Some? {
      DeliverWhole(parts[1..], Later(net));
      if Deliver(parts[1..], Later(net)).Sent? {
        DeliverAtMost(parts[1..], Later(net));
        var n, sent := Min(Next(net).taken.value, |parts[0]|), Deliver(parts[1..], Later(net)).bytes;
        SameEnds(parts[0], n, sent, Flatten(parts[1..]));
      }
    }
  }

  lemma SameEnds(first: seq<Byte>, n: nat, sent: seq<Byte>, rest: seq<Byte>)
    requires n <= |first| && |sent| <= |rest|
    ensures first[..n] + sent == first + rest <==> n == |first| && sent == rest
  {
    if first[..n] + sent == first + rest {
      assert |first[..n] + sent| == n + |sent|;
      assert (first[..n] + sent)[n..] == sent && (first + rest)[|first|..] == rest;
    } else if n == |first| {
      assert first[..n] == first;
    }
  }

  /** No copy fails, and every send takes whatever it is given. */
  predicate Unhindered(net: seq<Delivery>) {
    forall i :: 0 <= i < |net| ==> net[i].copyOk && net[i].taken.Some? && net[i].taken.value >= BUF_SIZE
  }

  lemma {:induction false} UnhinderedComplete(parts: seq<seq<Byte>>, net: seq<Delivery>)
    requires Unhindered(net) && forall i :: 0 <= i < |parts| ==> |parts[i]| <= BUF_SIZE
    ensures Complete(parts, net)
    decreases |parts|
  {
    if parts != [] {
      UnhinderedComplete(parts[1..], Later(net));
    }
  }

  lemma DrainParts(ps: seq<Packet>, pos: nat, c: nat)
    requires c > 0
    ensures forall i :: 0 <= i < |Drain(ps, pos, c)| ==> 0 < |Drain(ps, pos, c)[i]| <= c
  {
    forall i | 0 <= i < |Drain(ps, pos, c)|
      ensures 0 < |Drain(ps, pos, c)[i]| <= c
    {
      DrainNth(ps, pos, c, i);
      ReadAtIsContent(ps, pos + |Flatten(Drain(ps, pos, c)[..i])|, c);
    }
  }

  /** The reply is the whole content from its start on exactly when every read was delivered completely. */
  lemma ReplyWhole(lg: Log, pos: nat, net: seq<Delivery>)
    ensures Reply(lg, Sent([]), pos, net) == Served(lg, From(Content(lg), pos))
        <==> Complete(Drain(Retained(lg.packets), pos, BUF_SIZE), net)
    ensures Unhindered(net) ==> Reply(lg, Sent([]), pos, net) == Served(lg, From(Content(lg), pos))
  {
    var parts := Drain(Retained(lg.packets), pos, BUF_SIZE);
    DrainParts(Retained(lg.packets), pos, BUF_SIZE);
    DrainIsContent(Retained(lg.packets), pos, BUF_SIZE);
    DeliverWhole(parts, net);
    if Unhindered(net) {
      UnhinderedComplete(parts, net);
    }
    var sent := Deliver(parts, net);
    if sent.Sent? {
      assert [] + sent.bytes == sent.bytes;
    }
  }

  /** A reply from the start is read in blocks of 1024 bytes, as many as each packet needs. */
  lemma RepliesInBlocks(lg: Log)
    ensures |Drain(Retained(lg.packets), 0, BUF_SIZE)| == Sum(BlockCounts(Retained(lg.packets), 1024))
  {
    DrainReadsFromStart(Retained(lg.packets), BUF_SIZE);
  }

  // ----- failed and short deliveries -----

  /** Read number i is copied, as all before it are, and its send fails. */
  predicate FailsAt(net: seq<Delivery>, i: nat) {
    i < |net| && net[i].taken == None && forall j :: 0 <= j <= i ==> net[j].copyOk
  }

  lemma FailsLater(net: seq<Delivery>, i: nat)
    requires net != []
    ensures FailsAt(net, i + 1) <==> net[0].copyOk && FailsAt(net[1..], i)
  {
    if FailsAt(net, i + 1) {
      assert forall j :: 0 <= j <= i ==> net[1..][j] == net[j + 1];
    }
    if net[0].copyOk && FailsAt(net[1..], i) {
      forall j | 0 <= j <= i + 1
        ensures net[j].copyOk
      {
        assert j > 0 ==> net[j] == net[1..][j - 1];
      }
    }
  }

  /** The send loop breaks exactly when a read that all copies let it come to is one whose send fails. */
  lemma {:induction false} DeliverBreaks(parts: seq<seq<Byte>>, net: seq<Delivery>)
    ensures Deliver(parts, net).Broken? <==> exists i :: 0 <= i < |parts| && FailsAt(net, i)
    decreases |parts|
  {
    if parts != [] && net != [] && net[0].copyOk && net[0].taken.Some? {
      DeliverBreaks(parts[1..], net[1..]);
      if Deliver(parts, net).Broken? {
        var i :| 0 <= i < |parts[1..]| && FailsAt(net[1..], i);
        FailsLater(net, i);
        assert FailsAt(net, i + 1);
      }
      forall i | 0 <= i < |parts| && FailsAt(net, i)
        ensures Deliver(parts, net).Broken?
      {
        FailsLater(net, i - 1);
      }
    } else if parts != [] && net == [] {
      DeliverBreaks(parts[1..], []);
    } else if parts != [] && net[0].copyOk {
      assert FailsAt(net, 0);
    }
  }

  /** The reads of a reply: all of them, or those before the first copy that fails. */
  predicate Reads(parts: seq<seq<Byte>>, net: seq<Delivery>, n: nat) {
    && n <= |parts|
    && (forall j :: 0 <= j < n && j < |net| ==> net[j].copyOk)
    && (n < |parts| ==> n < |net| && !net[n].copyOk)
  }

  /** As much of each of the first n parts as its send takes; beyond the list, all of it. */
  function Prefixes(parts: seq<seq<Byte>>, net: seq<Delivery>, n: nat): seq<seq<Byte>>
    requires n <= |parts|
  {
    seq(n, i requires 0 <= i < n =>
      if i < |net| && net[i].taken.Some? && net[i].taken.value < |parts[i]|
      then parts[i][..net[i].taken.value] else parts[i])
  }

  /** What is sent is the prefixes that the sends took, read by read, up to the first failed copy. */
  lemma {:induction false} DeliverPrefixes(parts: seq<seq<Byte>>, net: seq<Delivery>) returns (n: nat)
    requires forall i :: 0 <= i < |parts| ==> |parts[i]| <= BUF_SIZE
    ensures Reads(parts, net, n)
    ensures Deliver(parts, net).Sent? ==> Deliver(parts, net) == Sent(Flatten(Prefixes(parts, net, n)))
    decreases |parts|
  {
    if parts == [] || !Next(net).copyOk {
      n := 0;
    } else {
      var m := DeliverPrefixes(parts[1..], Later(net));
      n := m + 1;
      assert forall j :: 0 <= j < |Later(net)| ==> Later(net)[j] == net[j + 1];
      if Next(net).taken.Some? {
        PrefixesCons(parts, net, m);
      }
    }
  }

  lemma PrefixesCons(parts: seq<seq<Byte>>, net: seq<Delivery>, m: nat)
    requires parts != [] && m < |parts| && |parts[0]| <= BUF_SIZE && Next(net).taken.Some?
    ensures Flatten(Prefixes(parts, net, m + 1))
         == parts[0][..Min(Next(net).taken.value, |parts[0]|)] + Flatten(Prefixes(parts[1..], Later(net), m))
  {
    var all, rest := Prefixes(parts, net, m + 1), Prefixes(parts[1..], Later(net), m);
    assert all[0] == parts[0][..Min(Next(net).taken.value, |parts[0]|)];
    forall i | 0 <= i < m
      ensures all[1..][i] == rest[i]
    {
      assert i < |Later(net)| ==> Later(net)[i] == net[i + 1];
      assert parts[1..][i] == parts[i + 1];
    }
    assert all[1..] == rest;
  }

  /**
   A reply makes the process exit if and only if some read it comes to is copied and its
   send fails, and the log stays as it is. Otherwise the client has got, read by read, as
   much as its send took.
   */
  lemma ReplyDown(lg: Log, pos: nat, net: seq<Delivery>) returns (n: nat)
    ensures var parts, reply := Drain(Retained(lg.packets), pos, BUF_SIZE), Reply(lg, Sent([]), pos, net);
            && (reply.Down? <==> exists i :: 0 <= i < |parts| && FailsAt(net, i))
            && (reply.Down? ==> reply == Down(Exit, lg))
            && n <= |parts|
            && (forall j :: 0 <= j < n && j < |net| ==> net[j].copyOk)
            && (n < |parts| ==> n < |net| && !net[n].copyOk)
            && (reply.Served? ==> reply == Served(lg, Flatten(Prefixes(parts, net, n))))
  {
    var parts := Drain(Retained(lg.packets), pos, BUF_SIZE);
    DrainParts(Retained(lg.packets), pos, BUF_SIZE);
    DeliverBreaks(parts, net);
    n := DeliverPrefixes(parts, net);
    var sent := Deliver(parts, net);
    if sent.Sent? {
      assert [] + sent.bytes == sent.bytes;
    }
  }

  /** One failed send: the process exits, although everything was received. */
  lemma FailedSendStops()
    ensures var lg := Log([[65, 10]], []);
            Reply(lg, Sent([]), 0, [Delivery(true, None)]) == Down(Exit, lg)
  {
    var lg, net := Log([[65, NEWLINE]], []), [Delivery(true, None)];
    FlattenOne([65, NEWLINE]);
    DrainCons([[65, NEWLINE]], 0, BUF_SIZE);
    assert Retained(lg.packets) == [[65, NEWLINE]] && FailsAt(net, 0);
    var _ := ReplyDown(lg, 0, net);
  }

  /** One short send: the client gets the first byte of a two-byte packet and nothing else. */
  lemma ShortSendCuts()
    ensures var lg := Log([[65, NEWLINE]], []);
            && Content(lg) == [65, NEWLINE]
            && Reply(lg, Sent([]), 0, [Delivery(true, Some(1))]) == Served(lg, [65])
  {
    var line: Packet := [65, NEWLINE];
    FlattenOne(line);
    assert ReadAt([line], 0, BUF_SIZE) == line;
    DrainCons([line], 0, BUF_SIZE);
    DrainCons([line], 2, BUF_SIZE);
    assert Drain([line], 0, BUF_SIZE) == [line];
    assert Retained([line]) == [line];
    var net := [Delivery(true, Some(1))];
    assert [line][1..] == [] && Later(net) == [];
    assert Deliver([line], net) == Joined(SendOne(line, Some(1)), Deliver([], []));
    assert SendOne(line, Some(1)) == Sent([65]);
    assert [65] + [] == [65] && [] + [65] == [65];
  }

  // ----- a connection that ends in a newline -----

  /** Some chunk ends in a newline. */
  predicate EndsALine(conn: seq<Chunk>)
    requires LegalConn(conn)
    decreases |conn|
  {
    conn != [] && (EndsLine(conn[0]) || EndsALine(conn[1..]))
  }

  /** Nothing but data up to the first chunk that ends in a newline; what comes after it is never received. */
  predicate OnlyData(conn: seq<Chunk>)
    requires LegalConn(conn)
    decreases |conn|
  {
    conn == [] || (conn[0].Data? && (EndsLine(conn[0]) || OnlyData(conn[1..])))
  }

  /** Every chunk up to the first that ends in a newline is data and gets into the device. */
  predicate AllTaken(conn: seq<Chunk>)
    requires LegalConn(conn)
    decreases |conn|
  {
    conn == [] || (conn[0].Data? && Taken(conn[0].op) && (EndsLine(conn[0]) || AllTaken(conn[1..])))
  }

  function Words(c: Chunk): seq<Byte> {
    if c.Data? then c.op.data else []
  }

  /** The bytes a connection writes when all of it is taken: up to its first chunk that ends in a newline. */
  function Spoken(conn: seq<Chunk>): seq<Byte>
    requires LegalConn(conn)
    decreases |conn|
  {
    if conn == [] then [] else Words(conn[0]) + if EndsLine(conn[0]) then [] else Spoken(conn[1..])
  }

  lemma TerminatedEnd(a: seq<Byte>, b: seq<Byte>)
    requires b != []
    ensures Terminated(a + b) <==> b[|b| - 1] == NEWLINE
  {
  }

  /** What a connection of data makes of the log when all of it is taken. */
  function Written(lg: Log, conn: seq<Chunk>): Log
    requires LegalConn(conn)
  {
    var tail := lg.pending + Spoken(conn);
    if EndsALine(conn) then Log(lg.packets + [tail], []) else Log(lg.packets, tail)
  }

  lemma WrittenNothing(lg: Log)
    ensures Written(lg, []) == lg && Spoken([]) == []
  {
    assert lg.pending + [] == lg.pending;
  }

  lemma WrittenOn(lg: Log, conn: seq<Chunk>)
    requires LegalConn(conn) && conn != [] && conn[0].Data? && !EndsLine(conn[0])
    ensures Accept(lg, conn[0].op.data) == Log(lg.packets, lg.pending + conn[0].op.data)
    ensures Written(Accept(lg, conn[0].op.data), conn[1..]) == Written(lg, conn)
    ensures |Spoken(conn)| == |conn[0].op.data| + |Spoken(conn[1..])|
  {
    TerminatedEnd(lg.pending, conn[0].op.data);
    Reassociate(lg.pending, conn[0].op.data, Spoken(conn[1..]));
  }

  lemma WrittenLast(lg: Log, conn: seq<Chunk>)
    requires LegalConn(conn) && conn != [] && conn[0].Data? && EndsLine(conn[0])
    ensures Spoken(conn) == conn[0].op.data && Accept(lg, conn[0].op.data) == Written(lg, conn)
  {
    TerminatedEnd(lg.pending, conn[0].op.data);
    assert conn[0].op.data + [] == conn[0].op.data;
  }

  /**
   Wherever the newlines lie inside the chunks, and whatever the client sends behind the
   first chunk that ends in one: receiving succeeds exactly when every chunk gets into
   the device, and then the connection's bytes follow an earlier client's tail, as one
   packet if some chunk ended in a newline.
   */
  lemma {:induction false} ReceiveLine(lg: Log, pos: nat, seeked: bool, conn: seq<Chunk>)
    requires LegalConn(conn) && OnlyData(conn)
    ensures Receive(lg, pos, seeked, conn).Received? <==> AllTaken(conn)
    ensures AllTaken(conn) ==>
              Receive(lg, pos, seeked, conn) == Received(Written(lg, conn), pos + |Spoken(conn)|, seeked)
    decreases |conn|
  {
    hide Accept, Written, Spoken;
    if conn == [] {
      WrittenNothing(lg);
    } else if EndsLine(conn[0]) {
      WrittenLast(lg, conn);
    } else {
      WrittenOn(lg, conn);
      if Taken(conn[0].op) {
        ReceiveLine(Accept(lg, conn[0].op.data), pos + |conn[0].op.data|, seeked, conn[1..]);
      }
    }
  }

  predicate EndsWith(bytes: seq<Byte>, tail: seq<Byte>) {
    |tail| <= |bytes| && bytes[|bytes| - |tail|..] == tail
  }

  lemma EndIs(bytes: seq<Byte>, tail: seq<Byte>)
    ensures EndsWith(bytes, tail) <==> exists front :: bytes == front + tail
  {
    if EndsWith(bytes, tail) {
      assert bytes == bytes[..|bytes| - |tail|] + tail;
    }
  }

  lemma EndOfEnd(bytes: seq<Byte>, before: seq<Byte>, tail: seq<Byte>)
    requires EndsWith(bytes, before + tail)
    ensures EndsWith(bytes, tail)
  {
    var n := |bytes| - |before + tail|;
    assert bytes[n..][|before|..] == bytes[|bytes| - |tail|..];
  }

  /** The content ends in the packet committed last. */
  lemma ContentEnds(packets: seq<Packet>, packet: Packet)
    ensures EndsWith(Content(Log(packets + [packet], [])), packet)
  {
    RetainedAppend(packets, packet);
    var kept := if |packets| >= CAPACITY then Retained(packets)[1..] else Retained(packets);
    FlattenAppend(kept, [packet]);
    FlattenOne(packet);
  }

  /**
   A connection of data that ends in a newline commits one packet, behind whatever an
   earlier client left unfinished. The reply, when it is delivered completely, is the
   whole content, the last ten packets, and that ends in the packet. Such a connection
   is served exactly when every chunk gets into the device.
   */
  lemma ServeLine(lg: Log, client: Client)
    requires LegalConn(client.chunks) && OnlyData(client.chunks) && EndsALine(client.chunks)
    ensures var packet := lg.pending + Spoken(client.chunks);
            var after := Log(lg.packets + [packet], []);
            && (Serve(lg, client).Served? ==> AllTaken(client.chunks) && Serve(lg, client).lg == after)
            && (AllTaken(client.chunks) && Complete(Drain(Retained(after.packets), 0, BUF_SIZE), client.net)
                <==> Serve(lg, client) == Served(after, Content(after)))
            && (AllTaken(client.chunks) && Unhindered(client.net) ==>
                  Serve(lg, client) == Served(after, Content(after)))
            && EndsWith(Content(after), packet)
  {
    var packet := lg.pending + Spoken(client.chunks);
    var after := Log(lg.packets + [packet], []);
    ReceiveLine(lg, 0, false, client.chunks);
    assert Written(lg, client.chunks) == after;
    ContentEnds(lg.packets, packet);
    ReplyWhole(after, 0, client.net);
    assert From(Content(after), 0) == Content(after);
  }

  /** The client's own bytes are the end of its reply. */
  lemma ServeLineEnds(lg: Log, client: Client)
    requires LegalConn(client.chunks) && OnlyData(client.chunks) && EndsALine(client.chunks) && Unhindered(client.net)
    ensures Serve(lg, client).Served? <==> AllTaken(client.chunks)
    ensures Serve(lg, client).Served? ==> EndsWith(Serve(lg, client).reply, Spoken(client.chunks))
  {
    var packet := lg.pending + Spoken(client.chunks);
    ServeLine(lg, client);
    EndOfEnd(Content(Log(lg.packets + [packet], [])), lg.pending, Spoken(client.chunks));
  }

  // ----- a connection that seeks -----

  /** None of the chunks ends in a newline, be it data or a command. */
  predicate Unended(conn: seq<Chunk>)
    requires LegalConn(conn)
  {
    forall i :: 0 <= i < |conn| ==>
      match conn[i]
      case Data(op) => op.data[|op.data| - 1] != NEWLINE
      case SeekTo(_, _, newline) => !newline
  }

  /** While no chunk ends in a newline, what comes next is received too, from where these leave off. */
  lemma {:induction false} ReceiveOn(lg: Log, pos: nat, seeked: bool, first: seq<Chunk>, rest: seq<Chunk>)
    requires LegalConn(first) && LegalConn(rest) && Unended(first)
    ensures LegalConn(first + rest)
    ensures var r := Receive(lg, pos, seeked, first);
            Receive(lg, pos, seeked, first + rest)
            == if r.Received? then Receive(r.lg, r.pos, r.seeked, rest) else r
    decreases |first|
  {
    if first == [] {
      assert first + rest == rest;
    } else {
      var taken := Take(lg, pos, seeked, first[0]);
      assert (first + rest)[0] == first[0] && (first + rest)[1..] == first[1..] + rest;
      if taken.Received? {
        ReceiveOn(taken.lg, taken.pos, taken.seeked, first[1..], rest);
      }
    }
  }

  /**
   A seek command that ends in a newline ends the connection there, whatever else the
   client sends; without one the next chunk is received, from the position sought. The
   log stays as it is, and a seek that fails stops the worker.
   */
  lemma ReceiveSeek(lg: Log, pos: nat, seeked: bool, command: nat, offset: nat, newline: bool, rest: seq<Chunk>)
    requires LegalConn(rest)
    ensures LegalConn([SeekTo(command, offset, newline)] + rest)
    ensures var r := Receive(lg, pos, seeked, [SeekTo(command, offset, newline)] + rest);
            match SeekModel.SeekPosition(lg.packets, command, offset)
            case Sought(p) => r == if newline then Received(lg, p, true) else Receive(lg, p, true, rest)
            case Invalid => r == Stopped(Exit, lg)
            case WildUnlock => r == Stopped(Fault, lg)
  {
    assert ([SeekTo(command, offset, newline)] + rest)[1..] == rest;
  }

  /**
   A connection whose first newline ends a seek command: nothing behind it is received,
   nothing is rewound, and the reply, delivered completely, is the content from the
   position sought. A command that fails stops the process.
   */
  lemma ServeSeek(lg: Log, client: Client, first: seq<Chunk>, command: nat, offset: nat, rest: seq<Chunk>)
    requires LegalConn(first) && LegalConn(rest) && Unended(first)
    requires client.chunks == first + ([SeekTo(command, offset, true)] + rest)
    requires Receive(lg, 0, false, first).Received?
    ensures LegalConn(client.chunks)
    ensures var lg' := Receive(lg, 0, false, first).lg;
            match SeekModel.SeekPosition(lg'.packets, command, offset)
            case Sought(p) =>
              && Receive(lg, 0, false, client.chunks) == Received(lg', p, true)
              && (Complete(Drain(Retained(lg'.packets), p, BUF_SIZE), client.net)
                  <==> Serve(lg, client) == Served(lg', From(Content(lg'), p)))
              && (Unhindered(client.net) ==> Serve(lg, client) == Served(lg', From(Content(lg'), p)))
            case Invalid => Serve(lg, client) == Down(Exit, lg')
            case WildUnlock => Serve(lg, client) == Down(Fault, lg')
  {
    hide Receive, Content, Complete, Unended, SeekModel.SeekPosition, From, Reply;
    var r := Receive(lg, 0, false, first);
    ReceiveOn(lg, 0, false, first, [SeekTo(command, offset, true)] + rest);
    ReceiveSeek(r.lg, r.pos, r.seeked, command, offset, true, rest);
    var sought := SeekModel.SeekPosition(r.lg.packets, command, offset);
    if sought.Sought? {
      ReplyWhole(r.lg, sought.pos, client.net);
    }
  }

  /**
   A connection that seeks and then sends data up to a newline: the data is committed as
   without the seek, and the reply starts behind the position sought by as many bytes as
   were written after it.
   */
  lemma ServeSeekThenData(lg: Log, client: Client, first: seq<Chunk>, command: nat, offset: nat, data: seq<Chunk>)
    requires LegalConn(first) && LegalConn(data) && Unended(first)
    requires client.chunks == first + ([SeekTo(command, offset, false)] + data)
    requires OnlyData(data) && EndsALine(data) && AllTaken(data) && Unhindered(client.net)
    requires Receive(lg, 0, false, first).Received?
    requires SeekModel.SeekPosition(Receive(lg, 0, false, first).lg.packets, command, offset).Sought?
    ensures LegalConn(client.chunks)
    ensures var lg' := Receive(lg, 0, false, first).lg;
            var p := SeekModel.SeekPosition(lg'.packets, command, offset).pos;
            var after := Log(lg'.packets + [lg'.pending + Spoken(data)], []);
            Serve(lg, client) == Served(after, From(Content(after), p + |Spoken(data)|))
  {
    hide Receive, Content, Complete, Spoken, OnlyData, EndsALine, AllTaken, Unended, From, Reply;
    hide SeekModel.SeekPosition;
    var r := Receive(lg, 0, false, first);
    var p := SeekModel.SeekPosition(r.lg.packets, command, offset).pos;
    ReceiveOn(lg, 0, false, first, [SeekTo(command, offset, false)] + data);
    ReceiveSeek(r.lg, r.pos, r.seeked, command, offset, false, data);
    ReceiveLine(r.lg, p, true, data);
    ReplyWhole(Written(r.lg, data), p + |Spoken(data)|, client.net);
  }

  /** One line to an empty log: the client gets it back. */
  lemma OneLineServed()
    ensures var client := Client([Data(DeviceModel.WriteOp([65, 10], 2, Allocator.Grown, [], 0))], []);
            && LegalConn(client.chunks)
            && Serve(Log([], []), client) == Served(Log([[65, 10]], []), [65, 10])
  {
    var chunks := [Data(DeviceModel.WriteOp([65, 10], 2, Allocator.Grown, [], 0))];
    var lg := Log([], []);
    assert OnlyData(chunks) && EndsALine(chunks) && AllTaken(chunks) && Spoken(chunks) == [65, 10];
    var line: Packet := [65, 10];
    assert lg.pending + line == line && lg.packets + [line] == [line];
    FlattenOne([65, 10]);
    assert Content(Log([[65, 10]], [])) == [65, 10];
    ServeLine(lg, Client(chunks, []));
  }

  /**
   A seek to the second byte of the only packet: the client gets that byte, and what it
   sends behind is not received.
   */
  lemma OneSeekServed(ignored: seq<Chunk>)
    requires LegalConn(ignored)
    ensures var client := Client([SeekTo(0, 1, true)] + ignored, []);
            && LegalConn(client.chunks)
            && Serve(Log([[65, 10]], []), client) == Served(Log([[65, 10]], []), [10])
  {
    var lg: Log := Log([[65, 10]], []);
    var client := Client([SeekTo(0, 1, true)] + ignored, []);
    assert client.chunks == [] + ([SeekTo(0, 1, true)] + ignored);
    FlattenOne([65, 10]);
    assert SeekModel.Slots(lg.packets) == [[65, 10]] && SeekModel.Slots(lg.packets)[..0] == [];
    assert From(Content(lg), 1) == [10];
    ServeSeek(lg, client, [], 0, 1, ignored);
  }

  // ----- a client that sends one line -----

  /** Nothing but data, all of it accepted. */
  predicate PlainConn(conn: seq<Chunk>) {
    LegalConn(conn) && forall i :: 0 <= i < |conn| ==> conn[i].Data? && Taken(conn[i].op)
  }

  function DataOf(conn: seq<Chunk>): seq<seq<Byte>>
    requires PlainConn(conn)
  {
    seq(|conn|, i requires 0 <= i < |conn| => conn[i].op.data)
  }

  /** A chunk that is neither the line's last nor empty does not end the line. */
  lemma LineGoesOn(conn: seq<Chunk>)
    requires PlainConn(conn) && |conn| > 1 && SingleLine(Flatten(DataOf(conn)))
    ensures !EndsLine(conn[0]) && SingleLine(Flatten(DataOf(conn[1..])))
  {
    var data, rest := conn[0].op.data, DataOf(conn[1..]);
    assert DataOf(conn)[0] == data && DataOf(conn)[1..] == rest;
    assert Flatten(rest) == rest[0] + Flatten(rest[1..]);
    FirstChunk(data, Flatten(rest), []);
    assert [] + data == data;
  }

  lemma DataCons(conn: seq<Chunk>)
    requires PlainConn(conn) && conn != []
    ensures PlainConn(conn[1..])
    ensures Flatten(DataOf(conn)) == conn[0].op.data + Flatten(DataOf(conn[1..]))
  {
    assert DataOf(conn)[0] == conn[0].op.data && DataOf(conn)[1..] == DataOf(conn[1..]);
  }

  lemma LastChunk(conn: seq<Chunk>)
    requires PlainConn(conn) && |conn| == 1
    ensures Flatten(DataOf(conn)) == conn[0].op.data == Spoken(conn)
  {
    DataCons(conn);
    assert DataOf(conn[1..]) == [] && conn[1..] == [];
    assert conn[0].op.data + [] == conn[0].op.data;
  }

  /** A single line, however it is cut, is taken completely. */
  lemma {:induction false} SingleLineSpoken(conn: seq<Chunk>)
    requires PlainConn(conn) && SingleLine(Flatten(DataOf(conn)))
    ensures Spoken(conn) == Flatten(DataOf(conn)) && AllTaken(conn) && OnlyData(conn)
    ensures Terminated(Flatten(DataOf(conn))) ==> EndsALine(conn)
    decreases |conn|
  {
    if |conn| > 1 {
      LineGoesOn(conn);
      DataCons(conn);
      DataCons(conn[1..]);
      SingleLineSpoken(conn[1..]);
      TerminatedEnd(conn[0].op.data, Flatten(DataOf(conn[1..])));
    } else if |conn| == 1 {
      LastChunk(conn);
    }
  }

  /** However one line is cut into chunks, the log and the reply are the same. */
  lemma ServeSingleLine(lg: Log, client: Client)
    requires PlainConn(client.chunks) && Unhindered(client.net)
    requires var line := Flatten(DataOf(client.chunks)); SingleLine(line) && Terminated(line)
    ensures var after := Log(lg.packets + [lg.pending + Flatten(DataOf(client.chunks))], []);
            && Serve(lg, client) == Served(after, Content(after))
            && EndsWith(Content(after), Flatten(DataOf(client.chunks)))
  {
    var line := Flatten(DataOf(client.chunks));
    SingleLineSpoken(client.chunks);
    ServeLine(lg, client);
    EndOfEnd(Content(Log(lg.packets + [lg.pending + line], [])), lg.pending, line);
  }

  // ----- what a connection adds -----

  /** From before to after some first part of the words was added. */
  predicate Begun(before: seq<Byte>, after: seq<Byte>, words: seq<Byte>) {
    before <= after && after[|before|..] <= words
  }

  lemma BegunWith(before: seq<Byte>, part: seq<Byte>, words: seq<Byte>)
    requires part <= words
    ensures Begun(before, before + part, words)
  {
  }

  lemma BegunAfter(before: seq<Byte>, first: seq<Byte>, after: seq<Byte>, rest: seq<Byte>)
    requires Begun(before + first, after, rest)
    ensures Begun(before, after, first + rest)
  {
    assert after[..|before|] == (before + first)[..|before|] == before;
    assert after[|before|..] == first + after[|before + first|..];
  }

  /** A chunk that is taken adds its own bytes, and one that stops the worker a first part of them. */
  lemma TakeHistory(lg: Log, pos: nat, seeked: bool, c: Chunk)
    requires LegalChunk(c)
    ensures var taken := Take(lg, pos, seeked, c);
            if taken.Received? then History(taken.lg) == History(lg) + Words(c)
            else Begun(History(lg), History(taken.lg), Words(c))
  {
    match c {
      case Data(op) =>
        if Taken(op) {
          AcceptHistory(lg, op.data);
        } else {
          DeviceRefinement.LogStepHistory(lg, op);
          BegunWith(History(lg), DeviceRefinement.Given(op), op.data);
        }
      case SeekTo(_, _, _) =>
        assert History(lg) + [] == History(lg);
    }
  }

  /**
   A connection appends exactly its own bytes in one piece, or a first part of them when
   the worker stops.
   */
  lemma {:induction false} ReceiveHistory(lg: Log, pos: nat, seeked: bool, conn: seq<Chunk>)
    requires LegalConn(conn)
    ensures var r := Receive(lg, pos, seeked, conn);
            if r.Received? then History(r.lg) == History(lg) + Spoken(conn)
            else Begun(History(lg), History(r.lg), Spoken(conn))
    decreases |conn|
  {
    if conn == [] {
      assert History(lg) + [] == History(lg);
    } else {
      var taken, words := Take(lg, pos, seeked, conn[0]), Words(conn[0]);
      TakeHistory(lg, pos, seeked, conn[0]);
      if EndsLine(conn[0]) {
        assert words + [] == words;
      } else if taken.Stopped? {
        assert words <= words + Spoken(conn[1..]);
      } else {
        ReceiveHistory(taken.lg, taken.pos, taken.seeked, conn[1..]);
        if Receive(taken.lg, taken.pos, taken.seeked, conn[1..]).Received? {
          Reassociate(History(lg), words, Spoken(conn[1..]));
        } else {
          BegunAfter(History(lg), words, History(Receive(lg, pos, seeked, conn).lg), Spoken(conn[1..]));
        }
      }
    }
  }

  lemma ServeHistory(lg: Log, client: Client)
    requires LegalConn(client.chunks)
    ensures var r := Serve(lg, client);
            if r.Served? then History(r.lg) == History(lg) + Spoken(client.chunks)
            else Begun(History(lg), History(r.lg), Spoken(client.chunks))
  {
    ReceiveHistory(lg, 0, false, client.chunks);
    if Receive(lg, 0, false, client.chunks).Received? {
      BegunWith(History(lg), Spoken(client.chunks), Spoken(client.chunks));
    }
  }
}
