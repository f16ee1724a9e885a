/**
 Any number of worker threads, interleaved one step at a time with each other and with
 the arrival of what their clients send, sharing the device and the server's mutex.
 */
module Interleaving {
  import opened Bytes
  import opened PacketLog
  import RingModel
  import DeviceModel
  import opened DeviceRefinement
  import opened Service
  import opened Threads
  import ReadModel
  import SeekModel

  /** Thread t gets to run for one step, or one more thing its client sends arrives. */
  datatype Event = Turn(t: nat) | Arrival(t: nat)

  /** lg and order are history: the log of accepted bytes, and who took the mutex when. */
  datatype Sys = Sys(
    dev: DeviceModel.Dev,
    holder: Option<nat>,
    threads: seq<Thread>,
    stopped: Option<Reason>,
    lg: Log,
    order: seq<nat>)

  // ----- the steps -----

  predicate Sane(s: Sys) {
    RingModel.Shaped(s.dev.ring) && forall t :: 0 <= t < |s.threads| ==> LegalConn(s.threads[t].rest)
  }

  /** The system after its holder goes on; when it does so without the mutex, it has released it. */
  function Gone(s: Sys, t: nat, dev: DeviceModel.Dev, lg: Log, th: Thread): Sys
    requires t < |s.threads|
  {
    s.(dev := dev, lg := lg, threads := s.threads[t := th], holder := if Holding(th.pc) then s.holder else None)
  }

  function HolderStep(s: Sys, t: nat): Sys
    requires Sane(s) && t < |s.threads| && Acting(s.threads[t])
  {
    CallIsLegal(s.threads[t]);
    var (dev, answer) := OnDevice(s.dev, CallOf(s.threads[t]));
    var lg := OnLog(s.lg, CallOf(s.threads[t])).0;
    match Proceed(s.threads[t], answer)
    case Stops(reason) => s.(dev := dev, lg := lg, stopped := Some(reason))
    case Goes(th) => Gone(s, t, dev, lg, th)
  }

  /**
   The event is possible: its thread is neither done nor blocked, or something its client
   sends is still awaited.
   */
  predicate Enabled(s: Sys, e: Event) {
    && s.stopped.None?
    && e.t < |s.threads|
    && var th := s.threads[e.t];
       match e
       case Turn(_) => !th.pc.Done? && (th.pc.Waiting? ==> s.holder.None?) && !Starved(th)
       case Arrival(_) => (th.pc.Waiting? || th.pc.Receiving?) && Missing(th) > 0
  }

  function Step(s: Sys, e: Event): Sys
    requires Sane(s)
  {
    if !Enabled(s, e) then s
    else
      var th := s.threads[e.t];
      match e
      case Arrival(t) => s.(threads := s.threads[t := th.(here := th.here + 1)])
      case Turn(t) =>
        if th.pc.Waiting? then
          s.(holder := Some(t), threads := s.threads[t := th.(pc := Receiving)], order := s.order + [t])
        else if th.pc.HangingUp? then
          s.(threads := s.threads[t := th.(pc := Done)])
        else
          HolderStep(s, t)
  }

  // ----- the serial run -----

  datatype Fate = Up(lg: Log) | Fell(reason: Reason, lg: Log)

  predicate Numbered(clients: seq<Client>, order: seq<nat>) {
    && (forall t :: 0 <= t < |clients| ==> LegalConn(clients[t].chunks))
    && (forall i :: 0 <= i < |order| ==> order[i] < |clients|)
  }

  /** The connections served one after another, in mutex order. */
  function Serial(lg: Log, clients: seq<Client>, order: seq<nat>): Fate
    requires Numbered(clients, order)
    decreases |order|
  {
    if order == [] then Up(lg)
    else
      match Serial(lg, clients, order[..|order| - 1])
      case Fell(reason, lg') => Fell(reason, lg')
      case Up(lg') =>
        match Serve(lg', clients[order[|order| - 1]])
        case Down(reason, lg'') => Fell(reason, lg'')
        case Served(lg'', _) => Up(lg'')
  }

  /** Connection number i of the order gets this reply in the serial run. */
  ghost predicate RepliedSerially(lg: Log, clients: seq<Client>, order: seq<nat>, i: nat, reply: seq<Byte>)
    requires Numbered(clients, order) && i < |order|
  {
    var before := Serial(lg, clients, order[..i]);
    before.Up? && Serve(before.lg, clients[order[i]]).Served? && Serve(before.lg, clients[order[i]]).reply == reply
  }

  // ----- the invariant -----

  /** Who holds the mutex, who has had it, and in which order. */
  ghost predicate Mutex(threads: seq<Thread>, holder: Option<nat>, order: seq<nat>, clients: seq<Client>) {
    && |threads| == |clients|
    && Numbered(clients, order)
    && (forall i, j :: 0 <= i < j < |order| ==> order[i] != order[j])
    && (forall t :: 0 <= t < |clients| ==> (threads[t].pc.Waiting? <==> t !in order))
    && (forall t :: 0 <= t < |clients| && threads[t].pc.Waiting? ==>
          threads[t] == Fresh(clients[t]).(here := threads[t].here))
    && (forall t :: 0 <= t < |clients| ==> (Holding(threads[t].pc) <==> holder == Some(t)))
    && (holder.Some? ==> order != [] && holder.value == order[|order| - 1])
  }

  /** Every connection that is past the mutex got its serial reply. */
  ghost predicate Replies(threads: seq<Thread>, order: seq<nat>, lg0: Log, clients: seq<Client>)
    requires Numbered(clients, order) && |threads| == |clients|
  {
    forall i :: 0 <= i < |order| && !Holding(threads[order[i]].pc) ==>
      RepliedSerially(lg0, clients, order, i, threads[order[i]].sent)
  }

  /**
   The device follows the log, and the noted position is the holder's own whenever its
   fetch is next. A process that stopped left the device in step too, unless it stopped
   at a refused request.
   */
  ghost predicate Follows(dev: DeviceModel.Dev, lg: Log, stopped: Option<Reason>, th: Thread) {
    && (stopped.None? || !Refusal(CallOf(th)) ==> Refines(dev, lg))
    && (stopped.None? && th.pc.Fetching? ==> dev.nextRead == th.fpos)
  }

  /**
   The holder is on its way to the reply and log of its turn in the serial run, and has
   written a first part of its bytes.
   */
  ghost predicate Underway(
    lg: Log, stopped: Option<Reason>, th: Thread, lg0: Log, clients: seq<Client>, order: seq<nat>)
    requires Numbered(clients, order) && order != [] && LegalConn(th.rest)
  {
    var before, client := Serial(lg0, clients, order[..|order| - 1]), clients[order[|order| - 1]];
    && before.Up?
    && match stopped
       case Some(reason) => Serve(before.lg, client) == Down(reason, lg)
       case None =>
         && Finish(lg, th) == Serve(before.lg, client)
         && Midway(History(before.lg), History(lg), Owed(th), Spoken(client.chunks))
  }

  ghost predicate Inv(s: Sys, lg0: Log, clients: seq<Client>) {
    && Sane(s)
    && Mutex(s.threads, s.holder, s.order, clients)
    && Replies(s.threads, s.order, lg0, clients)
    && match s.holder
       case None => s.stopped == None && Refines(s.dev, s.lg) && Serial(lg0, clients, s.order) == Up(s.lg)
       case Some(h) =>
         && Follows(s.dev, s.lg, s.stopped, s.threads[h])
         && Underway(s.lg, s.stopped, s.threads[h], lg0, clients, s.order)
  }

  ghost predicate Start(s: Sys, lg0: Log, clients: seq<Client>) {
    && Refines(s.dev, lg0)
    && s.holder == None && s.stopped == None && s.lg == lg0 && s.order == []
    && (forall t :: 0 <= t < |clients| ==> LegalConn(clients[t].chunks))
    && |s.threads| == |clients| && forall t :: 0 <= t < |clients| ==> s.threads[t] == Fresh(clients[t])
  }

  lemma StartInv(s: Sys, lg0: Log, clients: seq<Client>)
    requires Start(s, lg0, clients)
    ensures Inv(s, lg0, clients)
  {
    RefinesShaped(s.dev, lg0);
  }

  // ----- the mutex and the replies, apart from the device -----

  lemma MutexAcquired(threads: seq<Thread>, order: seq<nat>, clients: seq<Client>, t: nat)
    requires Mutex(threads, None, order, clients) && t < |clients| && threads[t].pc.Waiting?
    ensures Mutex(threads[t := threads[t].(pc := Receiving)], Some(t), order + [t], clients)
  {
    var threads', order' := threads[t := threads[t].(pc := Receiving)], order + [t];
    forall u | 0 <= u < |clients|
      ensures threads'[u].pc.Waiting? <==> u !in order'
    {
      assert u in order' <==> u in order || u == t;
    }
  }

  /** A thread past the wait moves on, keeping or releasing the mutex. */
  lemma MutexMoved(threads: seq<Thread>, holder: Option<nat>, order: seq<nat>, clients: seq<Client>, t: nat, th: Thread)
    requires Mutex(threads, holder, order, clients) && t < |clients|
    requires !threads[t].pc.Waiting? && !th.pc.Waiting? && (Holding(th.pc) ==> holder == Some(t))
    ensures Mutex(threads[t := th], if holder == Some(t) && !Holding(th.pc) then None else holder, order, clients)
  {
  }

  lemma MutexArrived(
    threads: seq<Thread>, holder: Option<nat>, order: seq<nat>, clients: seq<Client>, t: nat, here: nat)
    requires Mutex(threads, holder, order, clients) && t < |clients|
    ensures Mutex(threads[t := threads[t].(here := here)], holder, order, clients)
  {
  }

  /** Extending the order changes nothing about the connections already in it. */
  lemma RepliesAcquired(threads: seq<Thread>, order: seq<nat>, lg0: Log, clients: seq<Client>, t: nat, th: Thread)
    requires Numbered(clients, order) && Numbered(clients, order + [t]) && |threads| == |clients| && t !in order
    requires Replies(threads, order, lg0, clients) && t < |clients| && Holding(th.pc)
    ensures Replies(threads[t := th], order + [t], lg0, clients)
  {
    forall i | 0 <= i < |order + [t]| && !Holding(threads[t := th][(order + [t])[i]].pc)
      ensures RepliedSerially(lg0, clients, order + [t], i, threads[t := th][(order + [t])[i]].sent)
    {
      assert i < |order| && (order + [t])[..i] == order[..i];
      assert RepliedSerially(lg0, clients, order, i, threads[order[i]].sent);
    }
  }

  lemma RepliesMoved(threads: seq<Thread>, order: seq<nat>, lg0: Log, clients: seq<Client>, t: nat, th: Thread)
    requires Numbered(clients, order) && |threads| == |clients| && t < |clients|
    requires Replies(threads, order, lg0, clients)
    requires forall i :: 0 <= i < |order| && order[i] == t && !Holding(th.pc) ==>
               RepliedSerially(lg0, clients, order, i, th.sent)
    ensures Replies(threads[t := th], order, lg0, clients)
  {
  }

  lemma SerialStep(lg0: Log, clients: seq<Client>, order: seq<nat>)
    requires Numbered(clients, order) && order != []
    ensures Numbered(clients, order[..|order| - 1])
    ensures var before := Serial(lg0, clients, order[..|order| - 1]);
            before.Up? ==>
              Serial(lg0, clients, order) ==
                match Serve(before.lg, clients[order[|order| - 1]])
                case Down(reason, lg) => Fell(reason, lg)
                case Served(lg, _) => Up(lg)
  {
  }

  // ----- the holder's way -----

  lemma MidwayStarts(now: seq<Byte>, spoken: seq<Byte>)
    ensures Midway(now, now, spoken, spoken)
  {
    assert now[|now|..] + spoken == spoken;
  }

  lemma UnderwayStarts(lg: Log, lg0: Log, clients: seq<Client>, order: seq<nat>, t: nat, here: nat)
    requires Numbered(clients, order) && t < |clients| && Serial(lg0, clients, order) == Up(lg)
    ensures Numbered(clients, order + [t])
    ensures Underway(lg, None, Fresh(clients[t]).(pc := Receiving, here := here), lg0, clients, order + [t])
  {
    assert (order + [t])[..|order|] == order;
    FreshFinish(lg, clients[t], here);
    MidwayStarts(History(lg), Spoken(clients[t].chunks));
  }

  /** What has arrived plays no part in where a thread is going. */
  lemma UnderwayArrived(
    lg: Log, stopped: Option<Reason>, th: Thread, here: nat, lg0: Log, clients: seq<Client>, order: seq<nat>)
    requires Numbered(clients, order) && order != [] && LegalConn(th.rest)
    ensures Underway(lg, stopped, th.(here := here), lg0, clients, order)
         == Underway(lg, stopped, th, lg0, clients, order)
  {
    assert Finish(lg, th.(here := here)) == Finish(lg, th);
  }

  lemma UnderwayMoves(lg: Log, th: Thread, lg0: Log, clients: seq<Client>, order: seq<nat>)
    requires Numbered(clients, order) && order != [] && Acting(th) && Underway(lg, None, th, lg0, clients, order)
    ensures LegalCall(CallOf(th))
    ensures var (lg', answer) := OnLog(lg, CallOf(th));
            match Proceed(th, answer)
            case Goes(th') => LegalConn(th'.rest) && Underway(lg', None, th', lg0, clients, order)
            case Stops(reason) => Underway(lg', Some(reason), th, lg0, clients, order)
  {
    var before, client := Serial(lg0, clients, order[..|order| - 1]), clients[order[|order| - 1]];
    StepOnCourse(lg, th);
    StepOwed(lg, th, History(before.lg), Spoken(client.chunks));
  }

  /** The last connection of the order, once served, extends the serial run. */
  lemma UnderwayEnds(lg: Log, th: Thread, lg0: Log, clients: seq<Client>, order: seq<nat>)
    requires Numbered(clients, order) && order != [] && LegalConn(th.rest) && th.pc.HangingUp?
    requires Underway(lg, None, th, lg0, clients, order)
    ensures Serial(lg0, clients, order) == Up(lg)
    ensures RepliedSerially(lg0, clients, order, |order| - 1, th.sent)
  {
    SerialStep(lg0, clients, order);
    NothingToFinish(lg, th);
  }

  /**
   The holder, if there is one, is the only thread past taking the mutex and before
   releasing it, and the last in the order.
   */
  lemma HolderHolds(s: Sys, lg0: Log, clients: seq<Client>)
    requires Inv(s, lg0, clients)
    ensures |s.threads| == |clients| && Numbered(clients, s.order)
    ensures s.holder.Some? ==>
              && s.holder.value < |s.threads| && Holding(s.threads[s.holder.value].pc)
              && s.order != [] && s.holder.value == s.order[|s.order| - 1]
    ensures s.holder.Some? ==> forall i :: 0 <= i < |s.order| - 1 ==> s.order[i] != s.holder.value
    ensures forall t :: 0 <= t < |s.threads| && Holding(s.threads[t].pc) ==> s.holder == Some(t)
  {
  }

  // ----- the steps keep the invariant -----

  lemma SaneWith(s: Sys, t: nat, th: Thread)
    requires Sane(s) && t < |s.threads| && LegalConn(th.rest)
    ensures Sane(s.(threads := s.threads[t := th]))
  {
  }

  lemma AcquireKeeps(s: Sys, t: nat, lg0: Log, clients: seq<Client>)
    requires Inv(s, lg0, clients) && Enabled(s, Turn(t)) && s.threads[t].pc.Waiting?
    ensures Inv(Step(s, Turn(t)), lg0, clients)
  {
    hide Underway, Serial, Replies, Refines, LegalConn;
    HolderHolds(s, lg0, clients);
    MutexAcquired(s.threads, s.order, clients, t);
    RepliesAcquired(s.threads, s.order, lg0, clients, t, s.threads[t].(pc := Receiving));
    UnderwayStarts(s.lg, lg0, clients, s.order, t, s.threads[t].here);
    SaneWith(s, t, s.threads[t].(pc := Receiving));
  }

  lemma RepliesHungUp(s: Sys, t: nat, lg0: Log, clients: seq<Client>)
    requires Numbered(clients, s.order) && |s.threads| == |clients| && t < |clients| && s.threads[t].pc.HangingUp?
    requires Replies(s.threads, s.order, lg0, clients)
    ensures Replies(s.threads[t := s.threads[t].(pc := Done)], s.order, lg0, clients)
  {
    hide RepliedSerially;
    RepliesMoved(s.threads, s.order, lg0, clients, t, s.threads[t].(pc := Done));
  }

  lemma RepliesArrived(s: Sys, t: nat, here: nat, lg0: Log, clients: seq<Client>)
    requires Numbered(clients, s.order) && |s.threads| == |clients| && t < |clients|
    requires Replies(s.threads, s.order, lg0, clients)
    ensures Replies(s.threads[t := s.threads[t].(here := here)], s.order, lg0, clients)
  {
    hide RepliedSerially;
    RepliesMoved(s.threads, s.order, lg0, clients, t, s.threads[t].(here := here));
  }

  lemma HungUpKeeps(s: Sys, t: nat, lg0: Log, clients: seq<Client>)
    requires Inv(s, lg0, clients) && Enabled(s, Turn(t)) && s.threads[t].pc.HangingUp?
    ensures Inv(Step(s, Turn(t)), lg0, clients)
  {
    hide Mutex, Replies, Follows, Underway, Serial, LegalConn, Refines;
    HolderHolds(s, lg0, clients);
    MutexMoved(s.threads, s.holder, s.order, clients, t, s.threads[t].(pc := Done));
    RepliesHungUp(s, t, lg0, clients);
    SaneWith(s, t, s.threads[t].(pc := Done));
  }

  lemma ArrivalKeeps(s: Sys, t: nat, lg0: Log, clients: seq<Client>)
    requires Inv(s, lg0, clients) && Enabled(s, Arrival(t))
    ensures Inv(Step(s, Arrival(t)), lg0, clients)
  {
    hide Mutex, Replies, Underway, Serial, LegalConn, Refines;
    var th := s.threads[t].(here := s.threads[t].here + 1);
    HolderHolds(s, lg0, clients);
    MutexArrived(s.threads, s.holder, s.order, clients, t, th.here);
    RepliesArrived(s, t, th.here, lg0, clients);
    if s.holder == Some(t) {
      UnderwayArrived(s.lg, s.stopped, s.threads[t], th.here, lg0, clients, s.order);
    }
    SaneWith(s, t, th);
  }

  /** The device after the holder's step. */
  lemma FollowsOn(s: Sys, t: nat)
    requires Sane(s) && t < |s.threads| && Acting(s.threads[t]) && s.stopped.None?
    requires Follows(s.dev, s.lg, None, s.threads[t])
    ensures LegalCall(CallOf(s.threads[t]))
    ensures var ((dev, answer), (lg, expected)) :=
              (OnDevice(s.dev, CallOf(s.threads[t])), OnLog(s.lg, CallOf(s.threads[t])));
            && answer == expected
            && RingModel.Shaped(dev.ring)
            && match Proceed(s.threads[t], answer)
               case Goes(th) => Follows(dev, lg, None, th)
               case Stops(reason) => Follows(dev, lg, Some(reason), s.threads[t])
  {
    CallIsLegal(s.threads[t]);
    CallAnswers(s.dev, s.lg, CallOf(s.threads[t]));
    RefusalStops(s.lg, s.threads[t]);
    FetchingNext(s.threads[t], OnLog(s.lg, CallOf(s.threads[t])).1);
    FetchesOwn(s.threads[t]);
  }

  lemma FetchesOwn(th: Thread)
    ensures CallOf(th).FetchCall? ==> th.pc.Fetching? && CallOf(th).pos == th.fpos
  {
  }

  /** A fetch follows the note of the thread's own position. */
  lemma FetchingNext(th: Thread, answer: Response)
    requires Acting(th)
    ensures match Proceed(th, answer)
            case Goes(th') => th'.pc.Fetching? ==> CallOf(th) == NoteCall(th'.fpos)
            case Stops(_) => true
  {
  }

  lemma RefusalStops(lg: Log, th: Thread)
    requires Acting(th) && LegalCall(CallOf(th))
    ensures Refusal(CallOf(th)) ==> Proceed(th, OnLog(lg, CallOf(th)).1).Stops?
  {
  }

  lemma GoneKeeps(s: Sys, t: nat, dev: DeviceModel.Dev, lg: Log, th: Thread, lg0: Log, clients: seq<Client>)
    requires Inv(s, lg0, clients) && s.holder == Some(t) && s.stopped == None && t < |s.threads|
    requires RingModel.Shaped(dev.ring) && LegalConn(th.rest) && !th.pc.Waiting? && (Holding(th.pc) || th.pc.HangingUp?)
    requires Follows(dev, lg, None, th) && s.order != [] && Underway(lg, None, th, lg0, clients, s.order)
    ensures Inv(Gone(s, t, dev, lg, th), lg0, clients)
  {
    hide Mutex, Replies, Underway, Serial, LegalConn, Refines, RepliedSerially, CallOf;
    HolderHolds(s, lg0, clients);
    MutexMoved(s.threads, s.holder, s.order, clients, t, th);
    if !Holding(th.pc) {
      UnderwayEnds(lg, th, lg0, clients, s.order);
    }
    RepliesMoved(s.threads, s.order, lg0, clients, t, th);
    SaneWith(s, t, th);
  }

  lemma StoppedKeeps(s: Sys, t: nat, dev: DeviceModel.Dev, lg: Log, reason: Reason, lg0: Log, clients: seq<Client>)
    requires Inv(s, lg0, clients) && s.holder == Some(t) && t < |s.threads|
    requires RingModel.Shaped(dev.ring) && Follows(dev, lg, Some(reason), s.threads[t])
    requires s.order != [] && Underway(lg, Some(reason), s.threads[t], lg0, clients, s.order)
    ensures Inv(s.(dev := dev, lg := lg, stopped := Some(reason)), lg0, clients)
  {
  }

  /** A thread that holds the mutex is its holder, the last in the order and on its way. */
  lemma HolderIs(s: Sys, t: nat, lg0: Log, clients: seq<Client>)
    requires Inv(s, lg0, clients) && Enabled(s, Turn(t)) && Holding(s.threads[t].pc)
    ensures Acting(s.threads[t]) && s.holder == Some(t) && Step(s, Turn(t)) == HolderStep(s, t)
    ensures Numbered(clients, s.order) && s.order != []
    ensures Follows(s.dev, s.lg, None, s.threads[t]) && Underway(s.lg, None, s.threads[t], lg0, clients, s.order)
  {
  }

  lemma HolderKeeps(s: Sys, t: nat, lg0: Log, clients: seq<Client>)
    requires Inv(s, lg0, clients) && Enabled(s, Turn(t)) && Holding(s.threads[t].pc)
    ensures Inv(Step(s, Turn(t)), lg0, clients)
  {
    HolderIs(s, t, lg0, clients);
    var th := s.threads[t];
    FollowsOn(s, t);
    UnderwayMoves(s.lg, th, lg0, clients, s.order);
    StepReleases(th, OnLog(s.lg, CallOf(th)).1);
    var ((dev, answer), lg) := (OnDevice(s.dev, CallOf(th)), OnLog(s.lg, CallOf(th)).0);
    match Proceed(th, answer) {
      case Stops(reason) => StoppedKeeps(s, t, dev, lg, reason, lg0, clients);
      case Goes(th') => GoneKeeps(s, t, dev, lg, th', lg0, clients);
    }
  }

  /** One event keeps the run equal to a serial one. */
  lemma StepKeeps(s: Sys, e: Event, lg0: Log, clients: seq<Client>)
    requires Inv(s, lg0, clients)
    ensures Inv(Step(s, e), lg0, clients)
  {
    if Enabled(s, e) {
      match e {
        case Arrival(t) => ArrivalKeeps(s, t, lg0, clients);
        case Turn(t) =>
          if s.threads[t].pc.Waiting? {
            AcquireKeeps(s, t, lg0, clients);
          } else if s.threads[t].pc.HangingUp? {
            HungUpKeeps(s, t, lg0, clients);
          } else {
            HolderKeeps(s, t, lg0, clients);
          }
      }
    }
    hide Inv;
  }

  // ----- runs -----

  ghost function Run(s: Sys, lg0: Log, clients: seq<Client>, schedule: seq<Event>): (r: Sys)
    requires Inv(s, lg0, clients)
    ensures Inv(r, lg0, clients)
    decreases |schedule|
  {
    if schedule == [] then s
    else
      StepKeeps(s, schedule[0], lg0, clients);
      Run(Step(s, schedule[0]), lg0, clients, schedule[1..])
  }

  /** What the invariant says about a reachable state of the serial run. */
  ghost predicate AsSerial(r: Sys, lg0: Log, clients: seq<Client>) {
    && |r.threads| == |clients| && Numbered(clients, r.order)
    && (forall i, j :: 0 <= i < j < |r.order| ==> r.order[i] != r.order[j])
    && (forall i :: 0 <= i < |r.order| && (r.threads[r.order[i]].pc.HangingUp? || r.threads[r.order[i]].pc.Done?) ==>
          RepliedSerially(lg0, clients, r.order, i, r.threads[r.order[i]].sent))
    && (r.holder == None ==> Serial(lg0, clients, r.order) == Up(r.lg) && Refines(r.dev, r.lg))
    && (r.stopped.Some? ==>
          && Serial(lg0, clients, r.order) == Fell(r.stopped.value, r.lg)
          && r.holder.Some? && r.holder.value < |r.threads|
          && (Refines(r.dev, r.lg) || Refusal(CallOf(r.threads[r.holder.value]))))
  }

  /** When the process stops at the last connection of the order, the serial run does. */
  lemma UnderwayFell(
    lg: Log, reason: Reason, th: Thread, lg0: Log, clients: seq<Client>, order: seq<nat>)
    requires Numbered(clients, order) && order != [] && LegalConn(th.rest)
    requires Underway(lg, Some(reason), th, lg0, clients, order)
    ensures Serial(lg0, clients, order) == Fell(reason, lg)
  {
    SerialStep(lg0, clients, order);
  }

  lemma InvIsSerial(r: Sys, lg0: Log, clients: seq<Client>)
    requires Inv(r, lg0, clients)
    ensures AsSerial(r, lg0, clients)
  {
    HolderHolds(r, lg0, clients);
    if r.stopped.Some? {
      UnderwayFell(r.lg, r.stopped.value, r.threads[r.holder.value], lg0, clients, r.order);
    }
  }

  /**
   Serializability. Whatever the schedule: the connections were served as if one after
   another in the order they took the mutex. Every client past the mutex got exactly its
   serial reply; with the mutex free the device holds exactly the serial log; and the
   server stops exactly as the serial run does, with the log it stops with.
   */
  lemma Serializable(s: Sys, lg0: Log, clients: seq<Client>, schedule: seq<Event>)
    requires Start(s, lg0, clients)
    ensures Inv(s, lg0, clients)
    ensures var r := Run(s, lg0, clients, schedule);
            && |r.threads| == |clients| && Numbered(clients, r.order)
            && (forall i, j :: 0 <= i < j < |r.order| ==> r.order[i] != r.order[j])
            && (forall i :: 0 <= i < |r.order|
                            && (r.threads[r.order[i]].pc.HangingUp? || r.threads[r.order[i]].pc.Done?) ==>
                  RepliedSerially(lg0, clients, r.order, i, r.threads[r.order[i]].sent))
            && (r.holder == None ==> Serial(lg0, clients, r.order) == Up(r.lg) && Refines(r.dev, r.lg))
            && (r.stopped.Some? ==>
                  && Serial(lg0, clients, r.order) == Fell(r.stopped.value, r.lg)
                  && r.holder.Some? && r.holder.value < |r.threads|
                  && (Refines(r.dev, r.lg) || Refusal(CallOf(r.threads[r.holder.value]))))
  {
    hide Inv, Run, Refines, Serial, RepliedSerially, CallOf;
    StartInv(s, lg0, clients);
    InvIsSerial(Run(s, lg0, clients, schedule), lg0, clients);
  }

  /**
   In every reachable state at most one thread is past taking the mutex and has not
   released it, and that is its holder.
   */
  lemma MutualExclusion(s: Sys, lg0: Log, clients: seq<Client>, schedule: seq<Event>, t: nat, u: nat)
    requires Start(s, lg0, clients) && t < |clients| && u < |clients|
    ensures Inv(s, lg0, clients)
    ensures var r := Run(s, lg0, clients, schedule);
            && |r.threads| == |clients|
            && var (p, q) := (r.threads[t].pc, r.threads[u].pc);
               && (!p.Waiting? && !p.HangingUp? && !p.Done? ==> r.holder == Some(t))
               && (p.Waiting? || p.HangingUp? || p.Done? ==> r.holder != Some(t))
               && (!p.Waiting? && !p.HangingUp? && !p.Done? && !q.Waiting? && !q.HangingUp? && !q.Done? ==> t == u)
  {
    hide Inv, Run;
    StartInv(s, lg0, clients);
    HolderHolds(Run(s, lg0, clients, schedule), lg0, clients);
  }

  lemma FetchIsOwn(r: Sys, lg0: Log, clients: seq<Client>, t: nat)
    requires Inv(r, lg0, clients) && t < |clients| && r.stopped == None && r.threads[t].pc.Fetching?
    ensures Refines(r.dev, r.lg) && r.dev.nextRead == r.threads[t].fpos
  {
  }

  /** The outer mutex discharges the hazard: a fetch always finds the fetcher's own position noted. */
  lemma NotedPositionIsOwn(s: Sys, lg0: Log, clients: seq<Client>, schedule: seq<Event>, t: nat, copyOk: bool)
    requires Start(s, lg0, clients) && t < |clients|
    ensures Inv(s, lg0, clients)
    ensures var r := Run(s, lg0, clients, schedule);
            && |r.threads| == |clients|
            && (r.stopped == None && r.threads[t].pc.Fetching? ==>
                  && Refines(r.dev, r.lg) && RingModel.Shaped(r.dev.ring)
                  && ReadModel.FetchStep(r.dev, r.threads[t].fpos, BUF_SIZE, copyOk).result
                     == ReadModel.ReadOnce(Retained(r.lg.packets), r.threads[t].fpos, BUF_SIZE, copyOk))
  {
    StartInv(s, lg0, clients);
    var r := Run(s, lg0, clients, schedule);
    if r.stopped == None && r.threads[t].pc.Fetching? {
      FetchIsOwn(r, lg0, clients, t);
      RefinesShaped(r.dev, r.lg);
      FetchAnswers(r.dev, r.lg, r.threads[t].fpos, copyOk);
    }
  }

  // ----- consequences -----

  /** The bytes of the connections, in mutex order. */
  function SpokenInOrder(clients: seq<Client>, order: seq<nat>): seq<Byte>
    requires Numbered(clients, order)
    decreases |order|
  {
    if order == [] then []
    else SpokenInOrder(clients, order[..|order| - 1]) + Spoken(clients[order[|order| - 1]].chunks)
  }

  lemma {:induction false} SerialHistory(lg0: Log, clients: seq<Client>, order: seq<nat>)
    requires Numbered(clients, order) && Serial(lg0, clients, order).Up?
    ensures History(Serial(lg0, clients, order).lg) == History(lg0) + SpokenInOrder(clients, order)
    decreases |order|
  {
    if order == [] {
      assert History(lg0) + [] == History(lg0);
    } else {
      var rest, client := order[..|order| - 1], clients[order[|order| - 1]];
      SerialHistory(lg0, clients, rest);
      ServeHistory(Serial(lg0, clients, rest).lg, client);
      Reassociate(History(lg0), SpokenInOrder(clients, rest), Spoken(client.chunks));
    }
  }

  /** The bytes of the connections before the last. */
  function SpokenBefore(lg0: Log, clients: seq<Client>, order: seq<nat>): seq<Byte>
    requires Numbered(clients, order) && order != []
  {
    History(lg0) + SpokenInOrder(clients, order[..|order| - 1])
  }

  /**
   What the device has taken: the bytes of the connections in mutex order, each in one
   piece. While one connection is served it is the earlier ones' bytes followed by a
   first part of its own, and the rest is what it has still to write.
   */
  ghost predicate Unmixed(r: Sys, lg0: Log, clients: seq<Client>)
    requires Numbered(clients, r.order)
  {
    match r.holder
    case None => r.stopped == None && History(r.lg) == History(lg0) + SpokenInOrder(clients, r.order)
    case Some(h) =>
      && r.order != [] && h == r.order[|r.order| - 1] && h < |r.threads| && LegalConn(r.threads[h].rest)
      && var before, spoken := SpokenBefore(lg0, clients, r.order), Spoken(clients[h].chunks);
         && Begun(before, History(r.lg), spoken)
         && (r.stopped == None ==> Midway(before, History(r.lg), Owed(r.threads[h]), spoken))
  }

  lemma MidwayBegun(before: seq<Byte>, now: seq<Byte>, owed: seq<Byte>, spoken: seq<Byte>)
    requires Midway(before, now, owed, spoken)
    ensures Begun(before, now, spoken)
  {
  }

  lemma UnderwayUnmixed(
    lg: Log, stopped: Option<Reason>, th: Thread, lg0: Log, clients: seq<Client>, order: seq<nat>)
    requires Numbered(clients, order) && order != [] && LegalConn(th.rest)
    requires Underway(lg, stopped, th, lg0, clients, order)
    ensures var before, spoken := SpokenBefore(lg0, clients, order), Spoken(clients[order[|order| - 1]].chunks);
            && Begun(before, History(lg), spoken)
            && (stopped == None ==> Midway(before, History(lg), Owed(th), spoken))
  {
    hide Serial, Serve, Finish, Spoken, History, Begun, Midway, Owed;
    var before, client := Serial(lg0, clients, order[..|order| - 1]), clients[order[|order| - 1]];
    SerialHistory(lg0, clients, order[..|order| - 1]);
    if stopped.Some? {
      ServeHistory(before.lg, client);
    } else {
      MidwayBegun(History(before.lg), History(lg), Owed(th), Spoken(client.chunks));
    }
  }

  lemma InvUnmixed(r: Sys, lg0: Log, clients: seq<Client>)
    requires Inv(r, lg0, clients)
    ensures Numbered(clients, r.order) && Unmixed(r, lg0, clients)
  {
    hide Serial, Spoken, History, Begun, Midway, Owed, Underway, Replies, Refines, Follows, SpokenBefore;
    HolderHolds(r, lg0, clients);
    match r.holder {
      case None => SerialHistory(lg0, clients, r.order);
      case Some(h) => UnderwayUnmixed(r.lg, r.stopped, r.threads[h], lg0, clients, r.order);
    }
  }

  /** Connections never mix, in no schedule and at no time, also when the server stops inside one of them. */
  lemma NoMixing(s: Sys, lg0: Log, clients: seq<Client>, schedule: seq<Event>) returns (k: nat)
    requires Start(s, lg0, clients)
    ensures Inv(s, lg0, clients)
    ensures var r := Run(s, lg0, clients, schedule);
            && |r.threads| == |clients| && Numbered(clients, r.order)
            && (r.stopped == None ==> Refines(r.dev, r.lg))
            && match r.holder
               case None =>
                 r.stopped == None && History(r.lg) == History(lg0) + SpokenInOrder(clients, r.order)
               case Some(h) =>
                 && r.order != [] && h == r.order[|r.order| - 1] && LegalConn(r.threads[h].rest)
                 && var before, spoken := SpokenInOrder(clients, r.order[..|r.order| - 1]), Spoken(clients[h].chunks);
                    && k <= |spoken|
                    && History(r.lg) == History(lg0) + before + spoken[..k]
                    && (r.stopped == None ==> Owed(r.threads[h]) == spoken[k..])
  {
    hide Inv, Run, Refines, Owed, Spoken, SpokenInOrder, History, Begun, Midway;
    StartInv(s, lg0, clients);
    var r := Run(s, lg0, clients, schedule);
    HolderHolds(r, lg0, clients);
    InvInStep(r, lg0, clients);
    InvUnmixed(r, lg0, clients);
    k := 0;
    if r.holder.Some? {
      var before, spoken := SpokenBefore(lg0, clients, r.order), Spoken(clients[r.holder.value].chunks);
      k := BegunPart(before, History(r.lg), spoken);
      if r.stopped == None {
        MidwayPart(before, History(r.lg), Owed(r.threads[r.holder.value]), spoken, k);
      }
    }
  }

  lemma InvInStep(r: Sys, lg0: Log, clients: seq<Client>)
    requires Inv(r, lg0, clients)
    ensures r.stopped == None ==> Refines(r.dev, r.lg)
  {
    hide Refines, Underway, Replies, Serial;
  }

  lemma BegunPart(before: seq<Byte>, now: seq<Byte>, words: seq<Byte>) returns (k: nat)
    requires Begun(before, now, words)
    ensures k <= |words| && now == before + words[..k]
  {
    k := |now| - |before|;
    assert now == before + now[|before|..];
  }

  lemma MidwayPart(before: seq<Byte>, now: seq<Byte>, owed: seq<Byte>, words: seq<Byte>, k: nat)
    requires Midway(before, now, owed, words) && k <= |words| && now == before + words[..k]
    ensures owed == words[k..]
  {
    assert now[|before|..] == words[..k];
    assert words == words[..k] + words[k..];
    assert (words[..k] + owed)[k..] == owed;
  }

  /**
   The reply of a client whose data ends in a newline is the whole content once it is
   served, and ends in its own bytes.
   */
  lemma RepliedLine(lg0: Log, clients: seq<Client>, order: seq<nat>, i: nat, reply: seq<Byte>)
    requires Numbered(clients, order) && i < |order| && RepliedSerially(lg0, clients, order, i, reply)
    requires var client := clients[order[i]];
             OnlyData(client.chunks) && EndsALine(client.chunks) && Unhindered(client.net)
    ensures Numbered(clients, order[..i + 1])
    ensures var after := Serial(lg0, clients, order[..i + 1]); after.Up? && reply == Content(after.lg)
    ensures EndsWith(reply, Spoken(clients[order[i]].chunks))
  {
    hide Serial, Serve, Content, EndsWith, Spoken, OnlyData, EndsALine, AllTaken, Complete, Drain;
    var before, client := Serial(lg0, clients, order[..i]), clients[order[i]];
    assert order[..i + 1][..i] == order[..i];
    SerialStep(lg0, clients, order[..i + 1]);
    ServeLine(before.lg, client);
    ServeLineEnds(before.lg, client);
  }

  lemma LineReplied(r: Sys, lg0: Log, clients: seq<Client>, t: nat) returns (i: nat)
    requires Inv(r, lg0, clients) && t < |clients| && r.threads[t].pc.Done?
    requires OnlyData(clients[t].chunks) && EndsALine(clients[t].chunks) && Unhindered(clients[t].net)
    ensures i < |r.order| && r.order[i] == t && Numbered(clients, r.order[..i + 1])
    ensures var after := Serial(lg0, clients, r.order[..i + 1]); after.Up? && r.threads[t].sent == Content(after.lg)
    ensures EndsWith(r.threads[t].sent, Spoken(clients[t].chunks))
  {
    i :| 0 <= i < |r.order| && r.order[i] == t;
    RepliedLine(lg0, clients, r.order, i, r.threads[t].sent);
  }

  /**
   However the threads interleave: a finished client whose data ended in a newline, and
   whose reply met no short or failed delivery, got the content as it was when it had
   been served in its turn, and that ends in its own bytes.
   */
  lemma OwnLineLast(s: Sys, lg0: Log, clients: seq<Client>, schedule: seq<Event>, t: nat) returns (i: nat)
    requires Start(s, lg0, clients) && t < |clients|
    requires LegalConn(clients[t].chunks) && OnlyData(clients[t].chunks) && EndsALine(clients[t].chunks)
    requires Unhindered(clients[t].net)
    ensures Inv(s, lg0, clients)
    ensures var r := Run(s, lg0, clients, schedule);
            && |r.threads| == |clients|
            && (r.threads[t].pc.Done? ==>
                  && i < |r.order| && r.order[i] == t && Numbered(clients, r.order[..i + 1])
                  && var after := Serial(lg0, clients, r.order[..i + 1]);
                     && after.Up?
                     && r.threads[t].sent == Content(after.lg)
                     && EndsWith(r.threads[t].sent, Spoken(clients[t].chunks)))
  {
    hide Inv, Run, Serial, EndsWith, Content, Spoken, OnlyData, EndsALine, Unhindered;
    StartInv(s, lg0, clients);
    var r := Run(s, lg0, clients, schedule);
    HolderHolds(r, lg0, clients);
    i := 0;
    if r.threads[t].pc.Done? {
      i := LineReplied(r, lg0, clients, t);
    }
  }

  /**
   The reply of a client that sends a seek command on a line of its own is the content from
   where that leads.
   */
  lemma RepliedSeek(
    lg0: Log, clients: seq<Client>, order: seq<nat>, i: nat, reply: seq<Byte>,
    command: nat, offset: nat, rest: seq<Chunk>)
    requires Numbered(clients, order) && i < |order| && RepliedSerially(lg0, clients, order, i, reply)
    requires LegalConn(rest) && clients[order[i]].chunks == [SeekTo(command, offset, true)] + rest
    requires Unhindered(clients[order[i]].net)
    ensures Numbered(clients, order[..i]) && Numbered(clients, order[..i + 1])
    ensures var before := Serial(lg0, clients, order[..i]);
            && before.Up?
            && Serial(lg0, clients, order[..i + 1]) == before
            && var sought := SeekModel.SeekPosition(before.lg.packets, command, offset);
               sought.Sought? && reply == From(Content(before.lg), sought.pos)
  {
    hide Serial, Serve, Content, From, Complete, Drain, SeekModel.SeekPosition;
    var before, client := Serial(lg0, clients, order[..i]), clients[order[i]];
    assert order[..i + 1][..i] == order[..i];
    SerialStep(lg0, clients, order[..i + 1]);
    assert client.chunks == [] + ([SeekTo(command, offset, true)] + rest);
    ReceiveNone(before.lg);
    ServeSeek(before.lg, client, [], command, offset, rest);
  }

  lemma ReceiveNone(lg: Log)
    ensures Receive(lg, 0, false, []) == Received(lg, 0, false)
  {
  }

  lemma SeekReplied(
    r: Sys, lg0: Log, clients: seq<Client>, t: nat, command: nat, offset: nat, rest: seq<Chunk>) returns (i: nat)
    requires Inv(r, lg0, clients) && t < |clients| && r.threads[t].pc.Done?
    requires LegalConn(rest) && clients[t].chunks == [SeekTo(command, offset, true)] + rest
    requires Unhindered(clients[t].net)
    ensures i < |r.order| && r.order[i] == t && Numbered(clients, r.order[..i]) && Numbered(clients, r.order[..i + 1])
    ensures var before := Serial(lg0, clients, r.order[..i]);
            && before.Up?
            && Serial(lg0, clients, r.order[..i + 1]) == before
            && var sought := SeekModel.SeekPosition(before.lg.packets, command, offset);
               sought.Sought? && r.threads[t].sent == From(Content(before.lg), sought.pos)
  {
    i :| 0 <= i < |r.order| && r.order[i] == t;
    RepliedSeek(lg0, clients, r.order, i, r.threads[t].sent, command, offset, rest);
  }

  /**
   However the threads interleave: a finished client that sent a seek command on a line
   of its own changed nothing, whatever it sent behind it, and got the content as it was
   in its turn from the position sought.
   */
  lemma OwnSeek(
    s: Sys, lg0: Log, clients: seq<Client>, schedule: seq<Event>, t: nat,
    command: nat, offset: nat, rest: seq<Chunk>) returns (i: nat)
    requires Start(s, lg0, clients) && t < |clients|
    requires LegalConn(rest) && clients[t].chunks == [SeekTo(command, offset, true)] + rest
    requires Unhindered(clients[t].net)
    ensures Inv(s, lg0, clients)
    ensures var r := Run(s, lg0, clients, schedule);
            && |r.threads| == |clients|
            && (r.threads[t].pc.Done? ==>
                  && i < |r.order| && r.order[i] == t
                  && Numbered(clients, r.order[..i]) && Numbered(clients, r.order[..i + 1])
                  && var before := Serial(lg0, clients, r.order[..i]);
                     && before.Up?
                     && Serial(lg0, clients, r.order[..i + 1]) == before
                     && var sought := SeekModel.SeekPosition(before.lg.packets, command, offset);
                        sought.Sought? && r.threads[t].sent == From(Content(before.lg), sought.pos))
  {
    hide Inv, Run, Serial, Content, From, Unhindered, SeekModel.SeekPosition;
    StartInv(s, lg0, clients);
    var r := Run(s, lg0, clients, schedule);
    HolderHolds(r, lg0, clients);
    i := 0;
    if r.threads[t].pc.Done? {
      i := SeekReplied(r, lg0, clients, t, command, offset, rest);
    }
  }

  // ----- what has arrived -----

  /** How many events of the schedule are arrivals for thread t. */
  function Sends(schedule: seq<Event>, t: nat): nat {
    if schedule == [] then 0 else (if schedule[0] == Arrival(t) then 1 else 0) + Sends(schedule[1..], t)
  }

  /** How many of these were possible when they came. */
  ghost function Arrived(s: Sys, lg0: Log, clients: seq<Client>, schedule: seq<Event>, t: nat): nat
    requires Inv(s, lg0, clients)
    decreases |schedule|
  {
    if schedule == [] then 0
    else
      StepKeeps(s, schedule[0], lg0, clients);
      (if schedule[0] == Arrival(t) && Enabled(s, schedule[0]) then 1 else 0)
      + Arrived(Step(s, schedule[0]), lg0, clients, schedule[1..], t)
  }

  /**
   What has arrived for a thread, accounted for: the first chunks of its client, which it
   has taken, and what it can still take. It receives until it has taken a chunk that ends
   in a newline, or all of them and the end of sending.
   */
  predicate Account(chunks: seq<Chunk>, th: Thread, arrived: nat)
    requires LegalConn(chunks)
  {
    && |th.rest| <= |chunks|
    && var taken := |chunks| - |th.rest|;
       && th.rest == chunks[taken..]
       && if th.pc.Waiting? || th.pc.Receiving? then
            Unended(chunks[..taken]) && taken + th.here == arrived
          else if taken > 0 && !Unended([chunks[taken - 1]]) then
            Unended(chunks[..taken - 1]) && taken + th.here == arrived
          else
            th.rest == [] && Unended(chunks) && taken + 1 + th.here == arrived
  }

  lemma OneMore(chunks: seq<Chunk>, k: nat)
    requires LegalConn(chunks) && k < |chunks|
    ensures Unended(chunks[..k + 1]) <==> Unended(chunks[..k]) && Unended([chunks[k]])
    ensures Unended([chunks[k]]) <==> !EndsLine(chunks[k])
    ensures chunks[k..] != [] && chunks[k..][0] == chunks[k] && chunks[k..][1..] == chunks[k + 1..]
  {
    assert [chunks[k]][0] == chunks[k];
    assert forall i :: 0 <= i < k ==> chunks[..k + 1][i] == chunks[..k][i];
    assert chunks[..k + 1][k] == chunks[k];
    if Unended(chunks[..k]) && Unended([chunks[k]]) {
      forall i {:trigger chunks[..k + 1][i]} | 0 <= i < k + 1
        ensures match chunks[..k + 1][i]
                case Data(op) => op.data[|op.data| - 1] != NEWLINE
                case SeekTo(_, _, newline) => !newline
      {
        assert i < k ==> chunks[..k + 1][i] == chunks[..k][i];
      }
    }
  }

  lemma SwallowedAccount(chunks: seq<Chunk>, th: Thread, fpos: nat, seeked: bool, arrived: nat)
    requires LegalConn(chunks) && Account(chunks, th, arrived)
    requires Acting(th) && th.pc.Receiving? && th.rest != []
    ensures Account(chunks, Swallowed(th, fpos, seeked), arrived)
  {
    hide Unended, EndsLine, LegalConn;
    OneMore(chunks, |chunks| - |th.rest|);
  }

  lemma AllOf(chunks: seq<Chunk>)
    ensures chunks[..|chunks|] == chunks
  {
  }

  lemma LastUnended(chunks: seq<Chunk>)
    requires LegalConn(chunks) && Unended(chunks) && chunks != []
    ensures Unended([chunks[|chunks| - 1]])
  {
    assert [chunks[|chunks| - 1]][0] == chunks[|chunks| - 1];
  }

  lemma EndAccount(chunks: seq<Chunk>, th: Thread, th': Thread, arrived: nat)
    requires LegalConn(chunks) && Account(chunks, th, arrived)
    requires th.pc.Receiving? && th.rest == [] && th.here > 0
    requires th'.rest == [] && th'.here == th.here - 1 && !th'.pc.Waiting? && !th'.pc.Receiving?
    ensures Account(chunks, th', arrived)
  {
    hide *;
    AccountAll(chunks, th, arrived);
    AllAccounted(chunks, th', arrived);
  }

  lemma AccountAll(chunks: seq<Chunk>, th: Thread, arrived: nat)
    requires LegalConn(chunks) && Account(chunks, th, arrived) && th.pc.Receiving? && th.rest == []
    ensures Unended(chunks) && |chunks| + th.here == arrived
  {
    hide Unended, LegalConn;
    AllOf(chunks);
  }

  lemma AllAccounted(chunks: seq<Chunk>, th: Thread, arrived: nat)
    requires LegalConn(chunks) && Unended(chunks) && |chunks| + 1 + th.here == arrived
    requires th.rest == [] && !th.pc.Waiting? && !th.pc.Receiving?
    ensures Account(chunks, th, arrived)
  {
    hide Unended, LegalConn;
    if chunks != [] {
      LastUnended(chunks);
    }
  }

  lemma OtherAccount(chunks: seq<Chunk>, th: Thread, th': Thread, arrived: nat)
    requires LegalConn(chunks) && Account(chunks, th, arrived)
    requires th'.rest == th.rest && th'.here == th.here
    requires th'.pc.Waiting? || th'.pc.Receiving? <==> th.pc.Waiting? || th.pc.Receiving?
    ensures Account(chunks, th', arrived)
  {
    hide Unended;
  }

  lemma ArrivalAccount(chunks: seq<Chunk>, th: Thread, arrived: nat)
    requires LegalConn(chunks) && Account(chunks, th, arrived) && (th.pc.Waiting? || th.pc.Receiving?)
    ensures Account(chunks, th.(here := th.here + 1), arrived + 1)
    ensures Missing(th) > 0 <==> arrived <= |chunks|
  {
    hide Unended;
  }

  lemma ProceedAccount(chunks: seq<Chunk>, th: Thread, answer: Response, arrived: nat)
    requires LegalConn(chunks) && Account(chunks, th, arrived) && Acting(th)
    ensures match Proceed(th, answer)
            case Goes(th') => Account(chunks, th', arrived)
            case Stops(_) => true
  {
    ActingIs(th);
    hide *;
    if th.pc.Receiving? && th.rest != [] {
      ChunkSwallowed(th, answer);
      if Proceed(th, answer).Goes? {
        var th' := Proceed(th, answer).thread;
        SwallowedAccount(chunks, th, th'.fpos, th'.seeked, arrived);
      }
    } else {
      ChunksAlone(th, answer);
      if Proceed(th, answer).Goes? {
        if th.pc.Receiving? {
          EndAccount(chunks, th, Proceed(th, answer).thread, arrived);
        } else {
          OtherAccount(chunks, th, Proceed(th, answer).thread, arrived);
        }
      }
    }
  }

  lemma ActingIs(th: Thread)
    requires Acting(th)
    ensures !th.pc.Waiting? && (th.pc.Receiving? ==> th.here > 0)
  {
  }

  lemma StepAccount(s: Sys, e: Event, t: nat, chunks: seq<Chunk>, arrived: nat)
    requires Sane(s) && t < |s.threads| && LegalConn(chunks) && Account(chunks, s.threads[t], arrived)
    ensures |Step(s, e).threads| == |s.threads|
    ensures Account(chunks, Step(s, e).threads[t], arrived + if e == Arrival(t) && Enabled(s, e) then 1 else 0)
  {
    hide Account, OnDevice, OnLog, Proceed, LegalConn;
    if Enabled(s, e) && e.t == t {
      var th := s.threads[t];
      match e {
        case Arrival(_) => ArrivalAccount(chunks, th, arrived);
        case Turn(_) =>
          if th.pc.Waiting? {
            OtherAccount(chunks, th, th.(pc := Receiving), arrived);
          } else if th.pc.HangingUp? {
            OtherAccount(chunks, th, th.(pc := Done), arrived);
          } else {
            CallIsLegal(th);
            ProceedAccount(chunks, th, OnDevice(s.dev, CallOf(th)).1, arrived);
          }
      }
    }
  }

  lemma {:induction false} RunAccount(
    s: Sys, lg0: Log, clients: seq<Client>, schedule: seq<Event>, t: nat, chunks: seq<Chunk>, arrived: nat)
    requires Inv(s, lg0, clients) && t < |s.threads| && LegalConn(chunks) && Account(chunks, s.threads[t], arrived)
    ensures |Run(s, lg0, clients, schedule).threads| == |s.threads|
    ensures Account(chunks, Run(s, lg0, clients, schedule).threads[t], arrived + Arrived(s, lg0, clients, schedule, t))
    ensures Arrived(s, lg0, clients, schedule, t) <= Sends(schedule, t)
    decreases |schedule|
  {
    hide Inv, Step, Enabled, Account, Sane;
    InvSane(s, lg0, clients);
    if schedule != [] {
      var e := schedule[0];
      StepKeeps(s, e, lg0, clients);
      StepAccount(s, e, t, chunks, arrived);
      RunAccount(Step(s, e), lg0, clients, schedule[1..], t, chunks,
                 arrived + if e == Arrival(t) && Enabled(s, e) then 1 else 0);
    }
  }

  lemma InvSane(s: Sys, lg0: Log, clients: seq<Client>)
    requires Inv(s, lg0, clients)
    ensures Sane(s) && |s.threads| == |clients|
  {
  }

  lemma FreshAccount(client: Client)
    requires LegalConn(client.chunks)
    ensures Account(client.chunks, Fresh(client), 0)
  {
  }

  lemma StartsFresh(s: Sys, lg0: Log, clients: seq<Client>, t: nat)
    requires Start(s, lg0, clients) && t < |clients|
    ensures |s.threads| == |clients| && LegalConn(clients[t].chunks) && s.threads[t] == Fresh(clients[t])
  {
  }

  lemma AccountFacts(chunks: seq<Chunk>, th: Thread, arrived: nat)
    requires LegalConn(chunks) && Account(chunks, th, arrived)
    ensures |th.rest| <= |chunks| && th.rest == chunks[|chunks| - |th.rest|..]
    ensures var taken := |chunks| - |th.rest|;
            && taken + th.here <= arrived
            && (Starved(th) ==> taken == arrived)
            && (th.pc.Waiting? || th.pc.Receiving? ==>
                  && Unended(chunks[..taken]) && taken + th.here == arrived
                  && (Missing(th) > 0 <==> arrived <= |chunks|))
            && (!th.pc.Waiting? && !th.pc.Receiving? && !Unended(chunks) ==>
                  taken > 0 && Unended(chunks[..taken - 1]) && !Unended(chunks[..taken]) && taken + th.here == arrived)
            && (!th.pc.Waiting? && !th.pc.Receiving? && Unended(chunks) ==>
                  taken == |chunks| && taken + 1 + th.here == arrived)
  {
    var taken := |chunks| - |th.rest|;
    if taken > 0 {
      OneMore(chunks, taken - 1);
    }
    if Unended(chunks) {
      UnendedPrefix(chunks, taken);
    }
    hide Unended;
  }

  lemma UnendedPrefix(chunks: seq<Chunk>, k: nat)
    requires LegalConn(chunks) && k <= |chunks| && Unended(chunks)
    ensures Unended(chunks[..k])
  {
  }

  lemma MoreToCome(r: Sys, t: nat)
    requires t < |r.threads| && r.stopped == None && (r.threads[t].pc.Waiting? || r.threads[t].pc.Receiving?)
    ensures Enabled(r, Arrival(t)) <==> Missing(r.threads[t]) > 0
  {
  }

  /**
   Nothing is received before it arrives, and nothing that arrives is lost. In every run a
   thread has taken the first so many of its client's chunks, and these, the end of
   sending if it took that, and what it can still take are all that has arrived. As long
   as it waits for the mutex or receives, no chunk it took ended in a newline, and more can
   arrive until everything has; afterwards the chunk it took last did, and no other, or
   none did and it took them all. A thread that is blocked in recv has taken all there
   was.
   */
  lemma NothingBeforeItArrives(s: Sys, lg0: Log, clients: seq<Client>, schedule: seq<Event>, t: nat)
    requires Start(s, lg0, clients) && t < |clients|
    ensures Inv(s, lg0, clients)
    ensures var r, arrived := Run(s, lg0, clients, schedule), Arrived(s, lg0, clients, schedule, t);
            && |r.threads| == |clients|
            && arrived <= Sends(schedule, t)
            && var th, chunks := r.threads[t], clients[t].chunks;
               && |th.rest| <= |chunks| && th.rest == chunks[|chunks| - |th.rest|..]
               && |chunks| - |th.rest| + th.here <= arrived
               && (Starved(th) ==> |chunks| - |th.rest| == arrived)
               && (th.pc.Waiting? || th.pc.Receiving? ==>
                     Unended(chunks[..|chunks| - |th.rest|]) && |chunks| - |th.rest| + th.here == arrived)
               && (!th.pc.Waiting? && !th.pc.Receiving? && !Unended(chunks) ==>
                     && |chunks| - |th.rest| > 0 && Unended(chunks[..|chunks| - |th.rest| - 1])
                     && !Unended(chunks[..|chunks| - |th.rest|]) && |chunks| - |th.rest| + th.here == arrived)
               && (!th.pc.Waiting? && !th.pc.Receiving? && Unended(chunks) ==>
                     th.rest == [] && |chunks| + 1 + th.here == arrived)
               && (r.stopped == None && (th.pc.Waiting? || th.pc.Receiving?) ==>
                     (Enabled(r, Arrival(t)) <==> arrived <= |chunks|))
  {
    hide *;
    StartInv(s, lg0, clients);
    StartsFresh(s, lg0, clients, t);
    FreshAccount(clients[t]);
    RunAccount(s, lg0, clients, schedule, t, clients[t].chunks, 0);
    var r, arrived := Run(s, lg0, clients, schedule), Arrived(s, lg0, clients, schedule, t);
    AccountFacts(clients[t].chunks, r.threads[t], arrived);
    if r.stopped == None && (r.threads[t].pc.Waiting? || r.threads[t].pc.Receiving?) {
      MoreToCome(r, t);
    }
  }

  // ----- progress -----

  predicate Advanced(s: Sys, t: nat, s': Sys) {
    && t < |s.threads| == |s'.threads|
    && (s'.stopped.Some? || Closer(s.lg, s.threads[t], s'.lg, s'.threads[t]))
    && (forall u :: 0 <= u < |s.threads| && u != t ==> s'.threads[u] == s.threads[u])
  }

  lemma HolderAdvances(s: Sys, t: nat)
    requires Sane(s) && t < |s.threads| && s.stopped.None? && Acting(s.threads[t])
    requires Follows(s.dev, s.lg, None, s.threads[t])
    ensures Advanced(s, t, HolderStep(s, t))
  {
    FollowsOn(s, t);
    StepCloser(s.lg, s.threads[t]);
  }

  lemma OutsideAdvances(s: Sys, e: Event)
    requires Sane(s) && Enabled(s, e)
    requires e.Turn? ==> s.threads[e.t].pc.HangingUp? || s.threads[e.t].pc.Waiting?
    ensures Advanced(s, e.t, Step(s, e))
  {
  }

  /**
   Every event that is not blocked brings its thread closer to the end and leaves the
   others alone; so no schedule keeps the server busy for ever. The others change nothing.
   */
  lemma StepProgress(s: Sys, e: Event, lg0: Log, clients: seq<Client>)
    requires Inv(s, lg0, clients)
    ensures Enabled(s, e) ==> Advanced(s, e.t, Step(s, e))
    ensures Step(s, e) != s <==> Enabled(s, e)
    ensures Step(s, e) != s <==>
              && s.stopped.None? && e.t < |s.threads|
              && var th := s.threads[e.t];
                 match e
                 case Turn(_) =>
                   !th.pc.Done? && (th.pc.Waiting? ==> s.holder.None?) && (th.pc.Receiving? ==> th.here > 0)
                 case Arrival(_) => (th.pc.Waiting? || th.pc.Receiving?) && th.here <= |th.rest|
  {
    if Enabled(s, e) {
      if e.Turn? && Holding(s.threads[e.t].pc) {
        HolderAdvances(s, e.t);
      } else {
        OutsideAdvances(s, e);
      }
      AdvancedDiffers(s, e.t, Step(s, e));
    }
  }

  lemma AdvancedDiffers(s: Sys, t: nat, s': Sys)
    requires Advanced(s, t, s') && s.stopped.None?
    ensures s' != s
  {
  }

  /** Whoever gets to run first while the mutex is free takes it, and waits for what its client sends. */
  lemma FreeForAll(s: Sys, t: nat)
    requires Sane(s) && s.stopped.None? && s.holder.None? && t < |s.threads| && s.threads[t].pc.Waiting?
    ensures var s' := Step(s, Turn(t));
            && s'.holder == Some(t) && s'.order == s.order + [t] && s'.dev == s.dev && s'.lg == s.lg
            && s'.threads == s.threads[t := s.threads[t].(pc := Receiving)]
  {
  }

  // ----- completion -----

  function Phases(threads: seq<Thread>): seq<nat> {
    seq(|threads|, t requires 0 <= t < |threads| => Phase(threads[t].pc))
  }

  function Works(lg: Log, threads: seq<Thread>): seq<nat> {
    seq(|threads|, t requires 0 <= t < |threads| => Work(lg, threads[t]))
  }

  /** The whole system is closer to its end. */
  predicate Lower(s: Sys, s': Sys) {
    || Sum(Phases(s'.threads)) < Sum(Phases(s.threads))
    || (&& Sum(Phases(s'.threads)) == Sum(Phases(s.threads))
        && Sum(Works(s'.lg, s'.threads)) < Sum(Works(s.lg, s.threads)))
  }

  /**
   A step that brings one thread closer brings the system closer, when no other thread's
   work depends on the log.
   */
  lemma AdvancedRank(s: Sys, t: nat, s': Sys)
    requires Advanced(s, t, s') && s'.stopped.None?
    requires forall u :: 0 <= u < |s.threads| && u != t ==> Work(s'.lg, s.threads[u]) == Work(s.lg, s.threads[u])
    ensures Lower(s, s')
  {
    var phases, works := Phases(s.threads), Works(s.lg, s.threads);
    assert Phases(s'.threads) == phases[t := Phase(s'.threads[t].pc)];
    assert Works(s'.lg, s'.threads) == works[t := Work(s'.lg, s'.threads[t])];
    SumUpdate(phases, t, Phase(s'.threads[t].pc));
    SumUpdate(works, t, Work(s'.lg, s'.threads[t]));
  }

  /** Only the holder's step changes the log, and nobody else's work depends on it. */
  lemma StepLog(s: Sys, e: Event)
    requires Sane(s)
    requires forall u :: 0 <= u < |s.threads| && Holding(s.threads[u].pc) ==> s.holder == Some(u)
    ensures forall u :: 0 <= u < |s.threads| && u != e.t ==>
              Work(Step(s, e).lg, s.threads[u]) == Work(s.lg, s.threads[u])
  {
    if !Enabled(s, e) || e.Arrival? || !Holding(s.threads[e.t].pc) {
      assert Step(s, e).lg == s.lg;
    }
  }

  lemma StepRank(s: Sys, e: Event, lg0: Log, clients: seq<Client>)
    requires Inv(s, lg0, clients) && Enabled(s, e) && Step(s, e).stopped.None?
    ensures Lower(s, Step(s, e))
  {
    StepProgress(s, e, lg0, clients);
    StepLog(s, e);
    AdvancedRank(s, e.t, Step(s, e));
  }

  predicate Settled(s: Sys) {
    s.stopped.Some? || forall t :: 0 <= t < |s.threads| ==> s.threads[t].pc.Done?
  }

  /** The client being served is silent, and every other one waits for the mutex or is done. */
  predicate Silent(s: Sys) {
    && s.holder.Some? && s.holder.value < |s.threads| && Starved(s.threads[s.holder.value])
    && forall t :: 0 <= t < |s.threads| && t != s.holder.value ==> s.threads[t].pc.Waiting? || s.threads[t].pc.Done?
  }

  ghost predicate SomeTurn(s: Sys) {
    exists t :: Enabled(s, Turn(t))
  }

  lemma SilentArrival(s: Sys)
    requires Sane(s) && Silent(s) && s.stopped.None?
    ensures Enabled(s, Arrival(s.holder.value)) && Enabled(Step(s, Arrival(s.holder.value)), Turn(s.holder.value))
    ensures Step(s, Arrival(s.holder.value)).threads[s.holder.value].here == 1
  {
  }

  lemma NotSilent(s: Sys) returns (t: nat)
    requires !Settled(s) && !Silent(s)
    requires s.holder.Some? ==> s.holder.value < |s.threads| && Holding(s.threads[s.holder.value].pc)
    requires forall t :: 0 <= t < |s.threads| && Holding(s.threads[t].pc) ==> s.holder == Some(t)
    ensures Enabled(s, Turn(t))
  {
    var u :| 0 <= u < |s.threads| && !s.threads[u].pc.Done?;
    if s.holder.None? {
      t := u;
    } else if !Starved(s.threads[s.holder.value]) {
      t := s.holder.value;
    } else {
      t :| 0 <= t < |s.threads| && t != s.holder.value && !s.threads[t].pc.Waiting? && !s.threads[t].pc.Done?;
    }
  }

  lemma SilentStops(s: Sys, t: nat)
    requires Silent(s)
    ensures !Enabled(s, Turn(t))
  {
  }

  lemma TurnOrSilent(s: Sys, lg0: Log, clients: seq<Client>)
    requires Inv(s, lg0, clients) && !Settled(s)
    ensures SomeTurn(s) <==> !Silent(s)
  {
    HolderHolds(s, lg0, clients);
    if Silent(s) {
      forall t
        ensures !Enabled(s, Turn(t))
      {
        SilentStops(s, t);
      }
    } else {
      var t := NotSilent(s);
      assert Enabled(s, Turn(t));
    }
  }

  /**
   The only deadlock is a silent client: while the system is not settled, no thread can
   take a step if and only if the client being served is silent while every other one
   waits behind it or is done, and then the next thing that client sends lets its thread
   go on.
   */
  lemma NoDeadlock(s: Sys, lg0: Log, clients: seq<Client>)
    requires Inv(s, lg0, clients) && !Settled(s)
    ensures (exists t :: Step(s, Turn(t)) != s) <==> !Silent(s)
    ensures Silent(s) ==>
              var s' := Step(s, Arrival(s.holder.value));
              s' != s && Inv(s', lg0, clients) && Step(s', Turn(s.holder.value)) != s'
  {
    TurnOrSilent(s, lg0, clients);
    forall t
      ensures Step(s, Turn(t)) != s <==> Enabled(s, Turn(t))
    {
      StepProgress(s, Turn(t), lg0, clients);
    }
    if Silent(s) {
      SilentArrival(s);
      StepKeeps(s, Arrival(s.holder.value), lg0, clients);
      StepProgress(s, Arrival(s.holder.value), lg0, clients);
      StepProgress(Step(s, Arrival(s.holder.value)), Turn(s.holder.value), lg0, clients);
    }
  }

  lemma RunCons(s: Sys, lg0: Log, clients: seq<Client>, e: Event, rest: seq<Event>)
    requires Inv(s, lg0, clients)
    ensures Inv(Step(s, e), lg0, clients) && Sane(s) && Sane(Step(s, e))
    ensures Run(s, lg0, clients, [e] + rest) == Run(Step(s, e), lg0, clients, rest)
  {
    StepKeeps(s, e, lg0, clients);
    assert ([e] + rest)[1..] == rest;
  }

  /** While the system is not settled some event is enabled: a turn, or the silent client's next arrival. */
  lemma SomeEvent(s: Sys, lg0: Log, clients: seq<Client>) returns (e: Event)
    requires Inv(s, lg0, clients) && !Settled(s)
    ensures Enabled(s, e)
    ensures e.Arrival? ==> Silent(s)
  {
    TurnOrSilent(s, lg0, clients);
    if Silent(s) {
      e := Arrival(s.holder.value);
      SilentArrival(s);
    } else {
      var t :| Enabled(s, Turn(t));
      e := Turn(t);
    }
  }

  /**
   From every reachable state some schedule ends with every connection finished, or with
   the server stopped, once the clients send what they have to send.
   */
  lemma Completes(s: Sys, lg0: Log, clients: seq<Client>) returns (schedule: seq<Event>)
    requires Inv(s, lg0, clients)
    ensures var r := Run(s, lg0, clients, schedule);
            r.stopped.Some? || forall t :: 0 <= t < |r.threads| ==> r.threads[t].pc.Done?
    decreases Sum(Phases(s.threads)), Sum(Works(s.lg, s.threads))
  {
    hide Inv, Step, Enabled, Sum;
    schedule := [];
    if !Settled(s) {
      var e := SomeEvent(s, lg0, clients);
      var rest: seq<Event> := [];
      RunCons(s, lg0, clients, e, []);
      if !Settled(Step(s, e)) {
        StepRank(s, e, lg0, clients);
        rest := Completes(Step(s, e), lg0, clients);
        RunCons(s, lg0, clients, e, rest);
      }
      schedule := [e] + rest;
    }
  }

  /** The freshly booted device and any clients make a start. */
  lemma BootStarts(clients: seq<Client>)
    requires forall t :: 0 <= t < |clients| ==> LegalConn(clients[t].chunks)
    ensures var threads := seq(|clients|, t requires 0 <= t < |clients| => Fresh(clients[t]));
            Start(Sys(DeviceModel.BOOT, None, threads, None, EMPTY, []), EMPTY, clients)
  {
    BootRefines();
  }
}
