/**
 One worker thread as a machine. A step is what the thread does between two points where
 another thread could run: each driver call body is one step because it holds the
 device's own lock, except that a read first notes its position outside that lock. The
 device answers the same as the packet log does, so what a thread does with the answers
 can be followed over the log alone.
 */
module Threads {
  import opened Bytes
  import opened PacketLog
  import RingModel
  import opened DeviceModel
  import opened DeviceRefinement
  import opened ReadModel
  import SeekModel
  import opened Service
  import Worker

  datatype Pc =
    | Waiting | Receiving | Rewinding | Noting | Fetching | Handing(bytes: seq<Byte>)
    | Closing | Releasing | HangingUp | Done

  /** here: how many of the things the client still sends, its end of sending included, have arrived. */
  datatype Thread = Thread(
    pc: Pc, here: nat, rest: seq<Chunk>, net: seq<Delivery>, fpos: nat, seeked: bool, sent: seq<Byte>)

  function Fresh(client: Client): Thread {
    Thread(Waiting, 0, client.chunks, client.net, 0, false, [])
  }

  /** The thread is between taking and releasing the mutex. */
  predicate Holding(pc: Pc) {
    pc.Receiving? || pc.Rewinding? || pc.Noting? || pc.Fetching? || pc.Handing? || pc.Closing? || pc.Releasing?
  }

  /** The thread waits in recv for a client that is silent. */
  predicate Starved(th: Thread) {
    th.pc.Receiving? && th.here == 0
  }

  /** The thread may act as the mutex's holder. */
  predicate Acting(th: Thread) {
    LegalConn(th.rest) && Holding(th.pc) && !Starved(th)
  }

  // ----- what a thread asks of the driver, and what it does with the answer -----

  datatype Call =
    | NoCall
    | WriteCall(op: WriteOp)
    | SeekCall(writecmd: nat, offset: nat)
    | NoteCall(pos: nat)
    | FetchCall(pos: nat, copyOk: bool)

  datatype Response =
    | Quiet
    | OfWrite(written: WriteResult)
    | OfSeek(sought: SeekModel.SeekResult)
    | OfRead(read: ReadResult)

  function CallOf(th: Thread): Call {
    match th.pc
    case Receiving =>
      if th.rest == [] then NoCall
      else (match th.rest[0] case Data(op) => WriteCall(op) case SeekTo(cmd, offset, _) => SeekCall(cmd, offset))
    case Noting => NoteCall(th.fpos)
    case Fetching => FetchCall(th.fpos, Next(th.net).copyOk)
    case _ => NoCall
  }

  predicate LegalCall(call: Call) {
    call.WriteCall? ==> LegalChunk(Data(call.op))
  }

  function OnDevice(dev: Dev, call: Call): (Dev, Response)
    requires RingModel.Shaped(dev.ring) && LegalCall(call)
  {
    match call
    case NoCall => (dev, Quiet)
    case WriteCall(op) => var (dev', result) := WriteStep(dev, op); (dev', OfWrite(result))
    case SeekCall(cmd, offset) => (dev, OfSeek(SeekModel.SeekStep(dev.ring, cmd, offset)))
    case NoteCall(pos) => (NoteStep(dev, pos), Quiet)
    case FetchCall(pos, copyOk) => var f := FetchStep(dev, pos, BUF_SIZE, copyOk); (f.dev, OfRead(f.result))
  }

  function WriteAnswer(op: WriteOp): WriteResult {
    if op.alloc.Refused? then NoMemory else Wrote(op.copied)
  }

  function OnLog(lg: Log, call: Call): (Log, Response)
    requires LegalCall(call)
  {
    match call
    case NoCall => (lg, Quiet)
    case WriteCall(op) => (LogStep(lg, op), OfWrite(WriteAnswer(op)))
    case SeekCall(cmd, offset) => (lg, OfSeek(SeekModel.SeekPosition(lg.packets, cmd, offset)))
    case NoteCall(pos) => (lg, Quiet)
    case FetchCall(pos, copyOk) => (lg, OfRead(ReadOnce(Retained(lg.packets), pos, BUF_SIZE, copyOk)))
  }

  /** The thread after its first chunk, with the file position this left. */
  function Swallowed(th: Thread, fpos: nat, seeked: bool): Thread
    requires LegalConn(th.rest) && th.rest != [] && th.here > 0
  {
    th.(pc := if EndsLine(th.rest[0]) then Rewinding else Receiving,
        here := th.here - 1, rest := th.rest[1..], fpos := fpos, seeked := seeked)
  }

  /** Where the thread goes from here, or why the process stops. */
  datatype Onward = Goes(thread: Thread) | Stops(reason: Reason)

  function AfterChunk(th: Thread, answer: Response): Onward
    requires LegalConn(th.rest) && th.rest != [] && th.here > 0
  {
    match answer
    case OfWrite(result) =>
      if result == Wrote(|Words(th.rest[0])|) then Goes(Swallowed(th, th.fpos + |Words(th.rest[0])|, th.seeked))
      else Stops(if result.Stuck? then Fault else Exit)
    case OfSeek(Sought(p)) => Goes(Swallowed(th, p, true))
    case OfSeek(Invalid) => Stops(Exit)
    case _ => Stops(Fault)  // WildUnlock; the driver gives no other answer to a chunk
  }

  /** The send loop ends at an empty read, as at a failed one. */
  function AfterRead(th: Thread, answer: Response): Thread {
    if answer.OfRead? && answer.read.Got? && answer.read.bytes != []
    then th.(pc := Handing(answer.read.bytes), fpos := th.fpos + |answer.read.bytes|)
    else th.(pc := Closing)
  }

  function AfterSend(th: Thread, bytes: seq<Byte>): Onward {
    match SendOne(bytes, Next(th.net).taken)
    case Broken => Stops(Exit)
    case Sent(some) => Goes(th.(pc := Noting, net := Later(th.net), sent := th.sent + some))
  }

  /** One step of the thread that holds the mutex, given the driver's answer to its call. */
  function Proceed(th: Thread, answer: Response): Onward
    requires Acting(th)
  {
    match th.pc
    case Receiving =>
      if th.rest == [] then Goes(th.(pc := Rewinding, here := th.here - 1)) else AfterChunk(th, answer)
    case Rewinding => Goes(th.(pc := Noting, fpos := if th.seeked then th.fpos else 0))
    case Noting => Goes(th.(pc := Fetching))
    case Fetching => Goes(AfterRead(th, answer))
    case Handing(bytes) => AfterSend(th, bytes)
    case Closing => Goes(th.(pc := Releasing))
    case Releasing => Goes(th.(pc := HangingUp))
  }

  lemma CallIsLegal(th: Thread)
    requires LegalConn(th.rest)
    ensures LegalCall(CallOf(th))
  {
  }

  // ----- the device answers as the log does -----

  /** A refused request is the one call that may leave the device behind the log. */
  predicate Refusal(call: Call) {
    call.WriteCall? && call.op.alloc.Refused?
  }

  lemma WriteAnswers(dev: Dev, lg: Log, op: WriteOp)
    requires Refines(dev, lg) && LegalChunk(Data(op))
    ensures RingModel.Shaped(WriteStep(dev, op).0.ring)
    ensures WriteStep(dev, op).1 == WriteAnswer(op)
    ensures !op.alloc.Refused? ==> Refines(WriteStep(dev, op).0, LogStep(lg, op))
  {
    WriteShaped(dev, op);
    if Benign(lg, dev.working.buffptr != RingModel.NULL, op) {
      WriteRefines(dev, op, lg);
    } else {
      NotBenign(dev, op, lg);
    }
  }

  lemma FetchAnswers(dev: Dev, lg: Log, pos: nat, copyOk: bool)
    requires Refines(dev, lg) && dev.nextRead == pos
    ensures var f := FetchStep(dev, pos, BUF_SIZE, copyOk);
            f.result == ReadOnce(Retained(lg.packets), pos, BUF_SIZE, copyOk) && Refines(f.dev, lg)
  {
    FetchIsFrom(dev, Retained(lg.packets), pos, BUF_SIZE, copyOk);
    NoteRefines(dev, lg, FetchStep(dev, pos, BUF_SIZE, copyOk).dev.nextRead);
  }

  /** Every call gets the log's answer, and leaves the device in step with the log. */
  lemma CallAnswers(dev: Dev, lg: Log, call: Call)
    requires Refines(dev, lg) && LegalCall(call) && (call.FetchCall? ==> dev.nextRead == call.pos)
    ensures var ((dev', a), (lg', b)) := (OnDevice(dev, call), OnLog(lg, call));
            && a == b
            && RingModel.Shaped(dev'.ring)
            && (!Refusal(call) ==> Refines(dev', lg'))
            && (call.NoteCall? ==> dev'.nextRead == call.pos)
  {
    match call {
      case NoCall => RefinesShaped(dev, lg);
      case WriteCall(op) => WriteAnswers(dev, lg, op);
      case SeekCall(cmd, offset) =>
        RefinesShaped(dev, lg);
        SeekModel.SeekRefines(dev, lg, cmd, offset);
      case NoteCall(pos) =>
        RefinesShaped(dev, lg);
        NoteRefines(dev, lg, pos);
      case FetchCall(pos, copyOk) =>
        RefinesShaped(dev, lg);
        FetchAnswers(dev, lg, pos, copyOk);
        RefinesShaped(FetchStep(dev, pos, BUF_SIZE, copyOk).dev, lg);
    }
  }

  lemma RefinesShaped(dev: Dev, lg: Log)
    requires Refines(dev, lg)
    ensures RingModel.Shaped(dev.ring)
  {
  }

  // ----- what a thread still has to do, in terms of the log -----

  function Finish(lg: Log, th: Thread): ServeResult
    requires LegalConn(th.rest)
  {
    match th.pc
    case Receiving =>
      (match Receive(lg, th.fpos, th.seeked, th.rest)
       case Stopped(reason, lg') => Down(reason, lg')
       case Received(lg', pos, seeked) => Reply(lg', Sent(th.sent), if seeked then pos else 0, th.net))
    case Rewinding => Reply(lg, Sent(th.sent), if th.seeked then th.fpos else 0, th.net)
    case Noting => Reply(lg, Sent(th.sent), th.fpos, th.net)
    case Fetching => Reply(lg, Sent(th.sent), th.fpos, th.net)
    case Handing(bytes) => Reply(lg, Joined(Sent(th.sent), SendOne(bytes, Next(th.net).taken)), th.fpos, Later(th.net))
    case _ => Served(lg, th.sent)
  }

  lemma FreshFinish(lg: Log, client: Client, here: nat)
    requires LegalConn(client.chunks)
    ensures Finish(lg, Fresh(client).(pc := Receiving, here := here)) == Serve(lg, client)
  {
  }

  lemma NothingToFinish(lg: Log, th: Thread)
    requires LegalConn(th.rest) && th.pc.HangingUp?
    ensures Finish(lg, th) == Served(lg, th.sent)
  {
  }

  /** The thread's step leads to what it was on the way to. */
  ghost predicate OnCourse(lg: Log, th: Thread, lg': Log, onward: Onward)
    requires LegalConn(th.rest)
  {
    match onward
    case Goes(th') => LegalConn(th'.rest) && Finish(lg', th') == Finish(lg, th)
    case Stops(reason) => Finish(lg, th) == Down(reason, lg')
  }

  lemma ReceiveOne(lg: Log, pos: nat, seeked: bool, conn: seq<Chunk>)
    requires LegalConn(conn) && conn != []
    ensures var taken := Take(lg, pos, seeked, conn[0]);
            && LegalConn(conn[1..])
            && Receive(lg, pos, seeked, conn)
               == if taken.Stopped? || EndsLine(conn[0]) then taken
                  else Receive(taken.lg, taken.pos, taken.seeked, conn[1..])
  {
  }

  /** A chunk that is taken leaves the outcome, and one that is not stops the process there. */
  lemma ChunkOnCourse(lg: Log, th: Thread)
    requires Acting(th) && th.pc.Receiving? && th.rest != []
    ensures match Take(lg, th.fpos, th.seeked, th.rest[0])
            case Stopped(reason, lg') => Finish(lg, th) == Down(reason, lg')
            case Received(lg', pos, seeked) =>
              LegalConn(th.rest[1..]) && Finish(lg', Swallowed(th, pos, seeked)) == Finish(lg, th)
  {
    ReceiveOne(lg, th.fpos, th.seeked, th.rest);
  }

  lemma AnswerIsTake(lg: Log, th: Thread)
    requires Acting(th) && th.pc.Receiving? && th.rest != [] && LegalCall(CallOf(th))
    ensures var (lg', answer) := OnLog(lg, CallOf(th));
            match Take(lg, th.fpos, th.seeked, th.rest[0])
            case Stopped(reason, after) => AfterChunk(th, answer) == Stops(reason) && after == lg'
            case Received(after, pos, seeked) =>
              AfterChunk(th, answer) == Goes(Swallowed(th, pos, seeked)) && after == lg'
  {
    match th.rest[0] {
      case Data(op) =>
        if Taken(op) {
          Worker.TakenWhole(lg, op);
        }
      case SeekTo(_, _, _) =>
    }
  }

  lemma ReadOnCourse(lg: Log, th: Thread)
    requires Acting(th) && th.pc.Fetching?
    ensures var answer := OfRead(ReadOnce(Retained(lg.packets), th.fpos, BUF_SIZE, Next(th.net).copyOk));
            Finish(lg, AfterRead(th, answer)) == Finish(lg, th)
  {
    Worker.DeliverNext(Retained(lg.packets), th.fpos, th.sent, th.net);
    hide Drain, Deliver, ReadOnce, Receive, SendOne, Next;
    assert th.sent + [] == th.sent;
  }

  /** Every step of the holder keeps the outcome of its connection fixed. */
  lemma StepOnCourse(lg: Log, th: Thread)
    requires Acting(th)
    ensures LegalCall(CallOf(th))
    ensures var (lg', answer) := OnLog(lg, CallOf(th)); OnCourse(lg, th, lg', Proceed(th, answer))
  {
    CallIsLegal(th);
    if th.pc.Receiving? && th.rest != [] {
      ChunkOnCourse(lg, th);
      AnswerIsTake(lg, th);
      hide Take, Finish, OnLog, AfterChunk;
    } else if th.pc.Fetching? {
      ReadOnCourse(lg, th);
      hide ReadOnce, Finish, AfterRead;
    } else {
      hide Reply, SendOne;
    }
  }

  // ----- the bytes a connection has still to write -----

  function Owed(th: Thread): seq<Byte>
    requires LegalConn(th.rest)
  {
    if th.pc.Receiving? then Spoken(th.rest) else []
  }

  /**
   The history has grown from base by a first part of the connection's bytes, and the
   rest is what the thread still owes.
   */
  ghost predicate Midway(base: seq<Byte>, now: seq<Byte>, owed: seq<Byte>, spoken: seq<Byte>) {
    base <= now && now[|base|..] + owed == spoken
  }

  lemma MidwayOn(base: seq<Byte>, now: seq<Byte>, words: seq<Byte>, owed: seq<Byte>, spoken: seq<Byte>)
    requires Midway(base, now, words + owed, spoken)
    ensures Midway(base, now + words, owed, spoken)
  {
    assert (now + words)[|base|..] == now[|base|..] + words;
    Reassociate(now[|base|..], words, owed);
  }

  /** What a step adds to the history is what the thread no longer owes. */
  lemma StepOwed(lg: Log, th: Thread, base: seq<Byte>, spoken: seq<Byte>)
    requires Acting(th) && LegalCall(CallOf(th)) && Midway(base, History(lg), Owed(th), spoken)
    ensures var (lg', answer) := OnLog(lg, CallOf(th));
            match Proceed(th, answer)
            case Goes(th') => LegalConn(th'.rest) && Midway(base, History(lg'), Owed(th'), spoken)
            case Stops(_) => true
  {
    if th.pc.Receiving? && th.rest != [] {
      AnswerIsTake(lg, th);
      var taken := Take(lg, th.fpos, th.seeked, th.rest[0]);
      if taken.Received? {
        TakeHistory(lg, th.fpos, th.seeked, th.rest[0]);
        ReceiveOne(lg, th.fpos, th.seeked, th.rest);
        MidwayOn(base, History(lg), Words(th.rest[0]), Owed(Swallowed(th, taken.pos, taken.seeked)), spoken);
      }
    } else {
    }
  }

  // ----- progress -----

  function Phase(pc: Pc): nat {
    match pc
    case Waiting => 4
    case Receiving => 3
    case Rewinding => 2
    case Noting => 1
    case Fetching => 1
    case Handing(_) => 1
    case _ => 0
  }

  function Left(lg: Log, pos: nat): nat {
    if pos < |Content(lg)| then |Content(lg)| - pos else 0
  }

  /** How much of what the client sends, its end of sending included, is still on its way. */
  function Missing(th: Thread): nat {
    if th.here <= |th.rest| then |th.rest| + 1 - th.here else 0
  }

  function Work(lg: Log, th: Thread): nat {
    match th.pc
    case Waiting => Missing(th)
    case Receiving => |th.rest| + Missing(th)
    case Noting => 3 * Left(lg, th.fpos) + 2
    case Fetching => 3 * Left(lg, th.fpos) + 1
    case Handing(_) => 3 * Left(lg, th.fpos) + 3
    case Closing => 3
    case Releasing => 2
    case HangingUp => 1
    case _ => 0
  }

  predicate Closer(lg: Log, th: Thread, lg': Log, th': Thread) {
    Phase(th'.pc) < Phase(th.pc) || (Phase(th'.pc) == Phase(th.pc) && Work(lg', th') < Work(lg, th))
  }

  lemma ReadProgress(lg: Log, th: Thread)
    requires th.pc.Fetching?
    ensures var answer := OfRead(ReadOnce(Retained(lg.packets), th.fpos, BUF_SIZE, Next(th.net).copyOk));
            Closer(lg, th, lg, AfterRead(th, answer))
  {
    ReadAtIsContent(Retained(lg.packets), th.fpos, BUF_SIZE);
  }

  lemma ChunkProgress(lg: Log, lg': Log, th: Thread, fpos: nat, seeked: bool)
    requires Acting(th) && th.pc.Receiving? && th.rest != []
    ensures Closer(lg, th, lg', Swallowed(th, fpos, seeked))
  {
  }

  /** Every step of the holder brings it closer to its end. */
  lemma StepCloser(lg: Log, th: Thread)
    requires Acting(th) && LegalCall(CallOf(th))
    ensures var (lg', answer) := OnLog(lg, CallOf(th));
            Proceed(th, answer).Goes? ==> Closer(lg, th, lg', Proceed(th, answer).thread)
  {
    var (lg', answer) := OnLog(lg, CallOf(th));
    if th.pc.Receiving? && th.rest != [] {
      if Proceed(th, answer).Goes? {
        ChunkProgress(lg, lg', th, Proceed(th, answer).thread.fpos, Proceed(th, answer).thread.seeked);
      }
    } else if th.pc.Fetching? {
      ReadProgress(lg, th);
    } else {
    }
  }

  /** A receive step that goes on takes exactly one chunk. */
  lemma ChunkSwallowed(th: Thread, answer: Response)
    requires Acting(th) && th.pc.Receiving? && th.rest != []
    ensures match Proceed(th, answer)
            case Goes(th') => th' == Swallowed(th, th'.fpos, th'.seeked)
            case Stops(_) => true
  {
  }

  /**
   Every other step leaves what the client sends alone, but for the end of sending, which
   ends the receive loop, and does not lead back to receiving.
   */
  lemma ChunksAlone(th: Thread, answer: Response)
    requires Acting(th) && (th.pc.Receiving? ==> th.rest == [])
    ensures match Proceed(th, answer)
            case Goes(th') =>
              && th'.rest == th.rest && !th'.pc.Waiting? && !th'.pc.Receiving?
              && th'.here == if th.pc.Receiving? then th.here - 1 else th.here
            case Stops(_) => true
  {
  }

  /** A holder that has released the mutex has nothing left to do but hang up. */
  lemma StepReleases(th: Thread, answer: Response)
    requires Acting(th)
    ensures match Proceed(th, answer)
            case Goes(th') =>
              && !th'.pc.Waiting?
              && (!Holding(th'.pc) ==> th'.pc.HangingUp? && th.pc.Releasing? && th'.sent == th.sent)
            case Stops(_) => th.pc.Receiving? || th.pc.Handing?
  {
  }
}
