/** The device holds exactly what the packet log promises, over every run of writes. */
module DeviceRefinement {
  import opened Bytes
  import opened PacketLog
  import opened RingModel
  import opened Allocator
  import opened DeviceModel

  ghost predicate Holds(heap: Ledger, e: Entry, bytes: seq<Byte>) {
    Fits(heap, e) && e.size == |bytes| && heap.blocks[e.buffptr][..e.size] == bytes
  }

  /** The live entries, oldest first, hold the retained packets. */
  ghost predicate LiveHolds(r: Ring, heap: Ledger, ps: seq<Packet>)
    requires Shaped(r)
  {
    && LiveCount(r) == |ps|
    && forall k {:trigger Live(r)[k]} :: 0 <= k < |ps| ==> Holds(heap, Live(r)[k], ps[k])
  }

  /** The offsets and the flag are functions of how many packets were ever committed. */
  predicate Counts(r: Ring, committed: nat) {
    && r.inOffs == committed % CAPACITY
    && (r.full <==> committed >= CAPACITY)
    && r.outOffs == (if r.full then r.inOffs else 0)
  }

  /** All of the ring's redundant state agrees with the log. */
  ghost predicate RingRefines(r: Ring, heap: Ledger, packets: seq<Packet>) {
    && Shaped(r)
    && LiveHolds(r, heap, Retained(packets))
    && Counts(r, |packets|)
    && r.bufLen == Total(r) % SIZE_MOD
  }

  lemma AddCounts(r: Ring, e: Entry, committed: nat)
    requires Shaped(r) && Counts(r, committed)
    ensures Counts(Add(r, e).0, committed + 1)
  {
  }

  /** The working entry holds the tail; without a block there is none. */
  ghost predicate WorkingHolds(heap: Ledger, e: Entry, pending: seq<Byte>) {
    if e.buffptr == NULL then e == NO_ENTRY && pending == [] else Holds(heap, e, pending)
  }

  ghost predicate Refines(d: Dev, lg: Log) {
    && !d.oops
    && Safe(d, {})
    && WellFormed(lg)
    && RingRefines(d.ring, d.heap, lg.packets)
    && WorkingHolds(d.heap, d.working, lg.pending)
  }

  // ----- one write -----

  /** The bytes a write adds; a refused request adds none. */
  function Given(op: WriteOp): seq<Byte>
    requires Legal(op)
  {
    if op.alloc.Refused? then [] else Accepted(op)
  }

  /** What a write does to the log. */
  function LogStep(lg: Log, op: WriteOp): Log
    requires Legal(op)
  {
    if op.alloc.Refused? then lg else AcceptAt(lg, Accepted(op), op.before)
  }

  /** Whether the working entry has a block after a write: one was granted and not handed to the ring. */
  predicate HeldStep(lg: Log, op: WriteOp)
    requires Legal(op)
  {
    !op.alloc.Refused? && !Ends(lg.pending + Accepted(op), op.before)
  }

  /**
   The driver's own guards leave the other writes unprotected: a refused request with a
   block held, and a request for no bytes at all, whose block may not be looked at.
   */
  predicate Benign(lg: Log, held: bool, op: WriteOp)
    requires Legal(op)
  {
    if op.alloc.Refused? then !held else lg.pending + op.data != []
  }

  lemma LiveHoldsFrame(r: Ring, heap: Ledger, heap': Ledger, ps: seq<Packet>)
    requires Shaped(r) && LiveHolds(r, heap, ps)
    requires forall k :: 0 <= k < LiveCount(r) ==>
               var p := Live(r)[k].buffptr; p in heap.blocks ==> p in heap'.blocks && heap'.blocks[p] == heap.blocks[p]
    ensures LiveHolds(r, heap', ps)
  {
    forall k | 0 <= k < |ps|
      ensures Holds(heap', Live(r)[k], ps[k])
    {
      assert Holds(heap, Live(r)[k], ps[k]);
    }
  }

  lemma LiveHeld(r: Ring, k: nat)
    requires Shaped(r) && k < LiveCount(r) && Live(r)[k].buffptr != NULL
    ensures Live(r)[k].buffptr in Held(r.entry)
  {
    assert Live(r)[k] == r.entry[Wrap(r.outOffs + k)];
    HeldIn(r.entry, Wrap(r.outOffs + k));
  }

  /** A ring's packets stay where they are in a ledger that keeps its blocks. */
  lemma HeldFrame(r: Ring, heap: Ledger, heap': Ledger, ps: seq<Packet>)
    requires Shaped(r) && LiveHolds(r, heap, ps)
    requires forall o :: o in Held(r.entry) && o in heap.blocks ==>
               o in heap'.blocks && heap'.blocks[o] == heap.blocks[o]
    ensures LiveHolds(r, heap', ps)
  {
    forall k | 0 <= k < LiveCount(r)
      ensures var p := Live(r)[k].buffptr; p in heap.blocks ==> p in heap'.blocks && heap'.blocks[p] == heap.blocks[p]
    {
      assert Holds(heap, Live(r)[k], ps[k]);
      LiveHeld(r, k);
    }
    LiveHoldsFrame(r, heap, heap', ps);
  }

  lemma StageRefines(d: Dev, op: WriteOp, packets: seq<Packet>, pending: seq<Byte>)
    requires Safe(d, {}) && !d.oops && Legal(op) && !op.alloc.Refused?
    requires RingRefines(d.ring, d.heap, packets) && WorkingHolds(d.heap, d.working, pending)
    ensures var d' := Stage(d, op);
            && Safe(d', {})
            && d'.ring == d.ring
            && !d'.oops
            && RingRefines(d'.ring, d'.heap, packets)
            && Holds(d'.heap, d'.working, pending + Accepted(op))
  {
    StageSafe(d, op, {});
    StageLedger(d, op);
    HeldFrame(d.ring, d.heap, Stage(d, op).heap, Retained(packets));
    StageBytes(d, op, pending);
  }

  lemma TakeTake(s: seq<Byte>, a: nat, b: nat)
    requires b <= a <= |s|
    ensures s[..a][..b] == s[..b]
  {
  }

  /** The block granted starts with the old tail. */
  lemma GrownKeepsTail(heap: Ledger, e: Entry, n: nat, op: WriteOp, pending: seq<Byte>)
    requires Sound(heap) && WorkingHolds(heap, e, pending) && e.size <= n && !op.alloc.Refused?
    ensures var (heap', q) := Krealloc(heap, e.buffptr, n, op.alloc, op.junk);
            && q in heap'.blocks && |heap'.blocks[q]| == n && heap'.blocks[q][..e.size] == pending
  {
    KreallocSound(heap, e.buffptr, n, op.alloc, op.junk);
    var (heap', q) := Krealloc(heap, e.buffptr, n, op.alloc, op.junk);
    if e.buffptr != NULL {
      var block := heap.blocks[e.buffptr];
      if |block| <= n {
        TakeTake(heap'.blocks[q], |block|, e.size);
      } else {
        TakeTake(block, n, e.size);
      }
    }
  }

  /** Storing behind the front of a block leaves the front, followed by what was stored. */
  lemma StoreBehind(heap: Ledger, p: Ptr, at: nat, bytes: seq<Byte>, n: nat)
    requires p in heap.blocks && at + |bytes| <= |heap.blocks[p]| && n <= |bytes|
    ensures Store(heap, p, at, bytes).blocks[p][..at + n] == heap.blocks[p][..at] + bytes[..n]
  {
  }

  /** The staged block starts with the old tail and then the accepted bytes. */
  lemma StageBytes(d: Dev, op: WriteOp, pending: seq<Byte>)
    requires Sound(d.heap) && WorkingHolds(d.heap, d.working, pending) && Legal(op) && !op.alloc.Refused?
    ensures Holds(Stage(d, op).heap, Stage(d, op).working, pending + op.data[..op.copied])
  {
    var size := d.working.size;
    StageGranted(d, op);
    GrownKeepsTail(d.heap, d.working, size + |op.data|, op, pending);
    var (heap, q) := Krealloc(d.heap, d.working.buffptr, size + |op.data|, op.alloc, op.junk);
    StoreHolds(heap, q, pending, Accepted(op), seq(|op.data| - op.copied, _ => 0));
  }

  /** Behind the old tail lie the accepted bytes, then the zeros. */
  lemma StoreHolds(heap: Ledger, q: Ptr, pending: seq<Byte>, bytes: seq<Byte>, padding: seq<Byte>)
    requires q != NULL && q in heap.blocks && |heap.blocks[q]| == |pending| + |bytes| + |padding|
    requires heap.blocks[q][..|pending|] == pending
    ensures Holds(Store(heap, q, |pending|, bytes + padding), Entry(q, |pending| + |bytes|), pending + bytes)
  {
    StoreBehind(heap, q, |pending|, bytes + padding, |bytes|);
    assert (bytes + padding)[..|bytes|] == bytes;
  }

  /** The block a commit frees belongs to no entry that stays. */
  lemma CommitFreesOnlyOldest(d: Dev, k: nat)
    requires Safe(d, {}) && d.ring.full && 0 < k < CAPACITY
    ensures Live(d.ring)[k].buffptr != d.ring.entry[d.ring.inOffs].buffptr
    ensures d.working.buffptr != d.ring.entry[d.ring.inOffs].buffptr
  {
    var r := d.ring;
    var i := Wrap(r.outOffs + k);
    assert Live(r)[k] == r.entry[i] && i != r.inOffs;
    assert LiveSlot(r, i) && LiveSlot(r, r.inOffs);
    HeldIn(r.entry, r.inOffs);
  }

  /** Pushing an entry pushes its packet, provided the blocks of the entries that stay are untouched. */
  lemma PushLive(r: Ring, e: Entry, heap: Ledger, heap': Ledger, ps: seq<Packet>, tail: seq<Byte>)
    requires Shaped(r) && LiveHolds(r, heap, ps) && Holds(heap', e, tail)
    requires forall k :: (if r.full then 1 else 0) <= k < LiveCount(r) ==>
               (Fits(heap, Live(r)[k]) ==>
                 && Fits(heap', Live(r)[k])
                 && heap'.blocks[Live(r)[k].buffptr] == heap.blocks[Live(r)[k].buffptr])
    ensures Shaped(Add(r, e).0)
    ensures LiveHolds(Add(r, e).0, heap', (if r.full then ps[1..] else ps) + [tail])
  {
    AddIsPush(r, e);
    var r' := Add(r, e).0;
    var ps' := (if r.full then ps[1..] else ps) + [tail];
    forall k | 0 <= k < |ps'|
      ensures Holds(heap', Live(r')[k], ps'[k])
    {
      if k < |ps'| - 1 {
        var j := if r.full then k + 1 else k;
        assert Live(r')[k] == Live(r)[j] && ps'[k] == ps[j];
        assert Holds(heap, Live(r)[j], ps[j]);
      }
    }
  }

  lemma CommitLive(d: Dev, ps: seq<Packet>, tail: seq<Byte>)
    requires Safe(d, {}) && LiveHolds(d.ring, d.heap, ps) && Holds(d.heap, d.working, tail)
    ensures Shaped(Add(d.ring, d.working).0)
    ensures LiveHolds(Add(d.ring, d.working).0, Commit(d).heap, (if d.ring.full then ps[1..] else ps) + [tail])
  {
    CommitSafe(d, {});
    if d.ring.full {
      CommitFreesOnlyOldest(d, 1);
      forall k | 1 <= k < CAPACITY
        ensures Live(d.ring)[k].buffptr != d.ring.entry[d.ring.inOffs].buffptr
      {
        CommitFreesOnlyOldest(d, k);
      }
    }
    PushLive(d.ring, d.working, d.heap, Commit(d).heap, ps, tail);
  }

  lemma CommitRing(d: Dev, packets: seq<Packet>, tail: seq<Byte>)
    requires Safe(d, {}) && RingRefines(d.ring, d.heap, packets) && Holds(d.heap, d.working, tail)
    ensures RingRefines(Add(d.ring, d.working).0, Commit(d).heap, packets + [tail])
  {
    CommitLive(d, Retained(packets), tail);
    AddKeepsLength(d.ring, d.working);
    RetainedAppend(packets, tail);
    AddCounts(d.ring, d.working, |packets|);
  }

  lemma CommitRefines(d: Dev, packets: seq<Packet>, tail: seq<Byte>)
    requires Safe(d, {}) && !d.oops
    requires RingRefines(d.ring, d.heap, packets) && Holds(d.heap, d.working, tail)
    ensures Safe(Commit(d), {}) && Commit(d).working == NO_ENTRY && !Commit(d).oops
    ensures RingRefines(Commit(d).ring, Commit(d).heap, packets + [tail])
  {
    CommitSafe(d, {});
    CommitRing(d, packets, tail);
    SameLive(Commit(d).ring, Add(d.ring, d.working).0);
  }

  /** The overflow field plays no part in what a ring holds. */
  lemma SameLive(r: Ring, q: Ring)
    requires Shaped(q) && r == q.(overflow := r.overflow)
    ensures Shaped(r) && Live(r) == Live(q)
  {
  }

  lemma LastByteEnds(heap: Ledger, e: Entry, tail: seq<Byte>, before: Byte)
    requires Holds(heap, e, tail)
    ensures LastByte(heap, e, before) == NEWLINE <==> Ends(tail, before)
  {
    if tail != [] {
      assert heap.blocks[e.buffptr][..e.size][e.size - 1] == heap.blocks[e.buffptr][e.size - 1];
    }
  }

  /** Looking at the last byte commits the tail or leaves it, unless there is nothing to look at. */
  lemma SettleRefines(d: Dev, op: WriteOp, packets: seq<Packet>, tail: seq<Byte>)
    requires Safe(d, {}) && !d.oops && RingRefines(d.ring, d.heap, packets) && Holds(d.heap, d.working, tail)
    ensures var (d', result) := Settle(d, op);
            if tail == [] && op.data == [] then
              d' == d.(oops := true) && result == Stuck
            else
              && result == Wrote(op.copied)
              && Safe(d', {}) && !d'.oops
              && RingRefines(d'.ring, d'.heap, if Ends(tail, op.before) then packets + [tail] else packets)
              && WorkingHolds(d'.heap, d'.working, if Ends(tail, op.before) then [] else tail)
              && (d'.working.buffptr != NULL <==> !Ends(tail, op.before))
  {
    LastByteEnds(d.heap, d.working, tail, op.before);
    if !(tail == [] && op.data == []) && Ends(tail, op.before) {
      CommitRefines(d, packets, tail);
    }
  }

  /** A benign write keeps the device in step with the log and reports exactly what it accepted. */
  lemma WriteRefines(d: Dev, op: WriteOp, lg: Log)
    requires Refines(d, lg) && Legal(op) && Benign(lg, d.working.buffptr != NULL, op)
    ensures Refines(WriteStep(d, op).0, LogStep(lg, op))
    ensures WriteStep(d, op).0.working.buffptr != NULL <==> HeldStep(lg, op)
    ensures WriteStep(d, op).1 == if op.alloc.Refused? then NoMemory else Wrote(op.copied)
  {
    if op.alloc.Refused? {
      StageRefused(d, op);
      assert Stage(d, op) == d;
    } else {
      StageRefines(d, op, lg.packets, lg.pending);
      SettleRefines(Stage(d, op), op, lg.packets, lg.pending + Accepted(op));
      AcceptAtWellFormed(lg, Accepted(op), op.before);
    }
  }

  // ----- runs -----

  predicate AllLegal(ops: seq<WriteOp>) {
    forall i :: 0 <= i < |ops| ==> Legal(ops[i])
  }

  lemma BootRefines()
    ensures Refines(BOOT, EMPTY)
  {
    assert Held(NO_RING.entry) == {};
    assert Live(NO_RING) == [];
  }

  lemma WriteShaped(d: Dev, op: WriteOp)
    requires Legal(op) && Shaped(d.ring)
    ensures Shaped(WriteStep(d, op).0.ring)
  {
    AddIsPush(d.ring, Stage(d, op).working);
  }

  function WriteRun(d: Dev, ops: seq<WriteOp>): Dev
    requires Shaped(d.ring) && AllLegal(ops)
    decreases |ops|
  {
    if ops == [] then d else (WriteShaped(d, ops[0]); WriteRun(WriteStep(d, ops[0]).0, ops[1..]))
  }

  function LogRun(lg: Log, ops: seq<WriteOp>): Log
    requires AllLegal(ops)
    decreases |ops|
  {
    if ops == [] then lg else LogRun(LogStep(lg, ops[0]), ops[1..])
  }

  predicate HeldRun(lg: Log, held: bool, ops: seq<WriteOp>)
    requires AllLegal(ops)
    decreases |ops|
  {
    if ops == [] then held else HeldRun(LogStep(lg, ops[0]), HeldStep(lg, ops[0]), ops[1..])
  }

  predicate BenignRun(lg: Log, held: bool, ops: seq<WriteOp>)
    requires AllLegal(ops)
    decreases |ops|
  {
    ops == [] || (Benign(lg, held, ops[0]) && BenignRun(LogStep(lg, ops[0]), HeldStep(lg, ops[0]), ops[1..]))
  }

  /** The blocks a run loses. */
  function LostBy(d: Dev, ops: seq<WriteOp>): set<Ptr>
    requires Shaped(d.ring) && AllLegal(ops)
    decreases |ops|
  {
    if ops == [] then {}
    else (WriteShaped(d, ops[0]); Loses(d, ops[0]) + LostBy(WriteStep(d, ops[0]).0, ops[1..]))
  }

  lemma RunCons(d: Dev, ops: seq<WriteOp>)
    requires Shaped(d.ring) && AllLegal(ops) && ops != []
    ensures var d1 := WriteStep(d, ops[0]).0;
            && Shaped(d1.ring)
            && WriteRun(d, ops) == WriteRun(d1, ops[1..])
            && LostBy(d, ops) == Loses(d, ops[0]) + LostBy(d1, ops[1..])
  {
    WriteShaped(d, ops[0]);
  }

  lemma LostTogether(a: set<Ptr>, b: set<Ptr>, c: set<Ptr>)
    ensures (a + b) + c == a + (b + c)
  {
  }

  /** Ownership over every run: single owners throughout, and the orphans are exactly the lost blocks. */
  lemma {:induction false} RunSafe(d: Dev, ops: seq<WriteOp>, lost: set<Ptr>)
    requires Safe(d, lost) && AllLegal(ops)
    ensures Safe(WriteRun(d, ops), lost + LostBy(d, ops))
    decreases |ops|
  {
    if ops == [] {
      assert lost + LostBy(d, ops) == lost;
    } else {
      RunCons(d, ops);
      WriteSafe(d, ops[0], lost);
      RunSafe(WriteStep(d, ops[0]).0, ops[1..], lost + Loses(d, ops[0]));
      LostTogether(lost, Loses(d, ops[0]), LostBy(WriteStep(d, ops[0]).0, ops[1..]));
    }
  }

  lemma {:induction false} OopsStays(d: Dev, ops: seq<WriteOp>)
    requires d.oops && Shaped(d.ring) && AllLegal(ops)
    ensures WriteRun(d, ops) == d && LostBy(d, ops) == {}
    decreases |ops|
  {
    if ops != [] {
      OopsStays(d, ops[1..]);
    }
  }

  /** A write that is not benign either faults or loses the tail's block. */
  lemma NotBenign(d: Dev, op: WriteOp, lg: Log)
    requires Refines(d, lg) && Legal(op) && !Benign(lg, d.working.buffptr != NULL, op)
    ensures if op.alloc.Refused? then Loses(d, op) == {d.working.buffptr} != {NULL} else Loses(d, op) == {}
    ensures WriteStep(d, op).0.oops <==> !op.alloc.Refused?
    ensures WriteStep(d, op).1 == if op.alloc.Refused? then NoMemory else Stuck
  {
    if op.alloc.Refused? {
      StageRefused(d, op);
    } else {
      StageRefines(d, op, lg.packets, lg.pending);
      SettleRefines(Stage(d, op), op, lg.packets, lg.pending + Accepted(op));
    }
  }

  /** The device holds what some log promises. */
  ghost predicate InStepWithSome(d: Dev) {
    exists lg :: Refines(d, lg)
  }

  lemma LostIsNotRefined(d: Dev, lost: set<Ptr>)
    requires Safe(d, lost) && lost != {}
    ensures !InStepWithSome(d)
  {
    var p :| p in lost;
    assert p in d.heap.blocks.Keys && p !in Held(d.ring.entry) + PtrSet(d.working.buffptr) + {};
  }

  /** The device is in step with the log, and has a block for the tail or not. */
  ghost predicate InStepAs(d: Dev, lg: Log, held: bool) {
    Refines(d, lg) && (d.working.buffptr != NULL <==> held)
  }

  lemma InStepShaped(d: Dev, lg: Log, held: bool)
    requires InStepAs(d, lg, held)
    ensures Shaped(d.ring)
  {
  }

  lemma LogRunCons(lg: Log, held: bool, ops: seq<WriteOp>)
    requires AllLegal(ops) && ops != []
    ensures var (lg1, held1) := (LogStep(lg, ops[0]), HeldStep(lg, ops[0]));
            && LogRun(lg, ops) == LogRun(lg1, ops[1..])
            && HeldRun(lg, held, ops) == HeldRun(lg1, held1, ops[1..])
            && BenignRun(lg, held, ops) == (Benign(lg, held, ops[0]) && BenignRun(lg1, held1, ops[1..]))
  {
  }

  lemma StepInStep(d: Dev, op: WriteOp, lg: Log, held: bool)
    requires InStepAs(d, lg, held) && Legal(op) && Benign(lg, held, op)
    ensures InStepAs(WriteStep(d, op).0, LogStep(lg, op), HeldStep(lg, op))
    ensures Loses(d, op) == {}
  {
    WriteRefines(d, op, lg);
  }

  lemma {:induction false} BenignFollows(d: Dev, ops: seq<WriteOp>, lg: Log, held: bool)
    requires InStepAs(d, lg, held) && AllLegal(ops) && BenignRun(lg, held, ops)
    ensures InStepAs(WriteRun(d, ops), LogRun(lg, ops), HeldRun(lg, held, ops))
    decreases |ops|
  {
    hide WriteStep, LogStep, HeldStep, InStepAs;
    InStepShaped(d, lg, held);
    if ops != [] {
      RunCons(d, ops);
      LogRunCons(lg, held, ops);
      StepInStep(d, ops[0], lg, held);
      BenignFollows(WriteStep(d, ops[0]).0, ops[1..], LogStep(lg, ops[0]), HeldStep(lg, ops[0]));
    }
  }

  /** After a write that is not benign no further write brings the device back in step with any log. */
  lemma NeverBack(d: Dev, ops: seq<WriteOp>, lg: Log, held: bool)
    requires InStepAs(d, lg, held) && AllLegal(ops) && ops != [] && !Benign(lg, held, ops[0])
    ensures !InStepWithSome(WriteRun(d, ops))
  {
    var d1 := WriteStep(d, ops[0]).0;
    NotBenign(d, ops[0], lg);
    RunCons(d, ops);
    if d1.oops {
      OopsStays(d1, ops[1..]);
    } else {
      RunSafe(d, ops, {});
      assert d.working.buffptr in {} + LostBy(d, ops);
      LostIsNotRefined(WriteRun(d, ops), {} + LostBy(d, ops));
    }
  }

  lemma {:induction false} OthersFallBehind(d: Dev, ops: seq<WriteOp>, lg: Log, held: bool)
    requires InStepAs(d, lg, held) && AllLegal(ops) && !BenignRun(lg, held, ops)
    ensures !InStepWithSome(WriteRun(d, ops))
    decreases |ops|
  {
    hide WriteStep, LogStep, HeldStep, InStepAs, InStepWithSome;
    InStepShaped(d, lg, held);
    if Benign(lg, held, ops[0]) {
      RunCons(d, ops);
      LogRunCons(lg, held, ops);
      StepInStep(d, ops[0], lg, held);
      OthersFallBehind(WriteStep(d, ops[0]).0, ops[1..], LogStep(lg, ops[0]), HeldStep(lg, ops[0]));
    } else {
      NeverBack(d, ops, lg, held);
    }
  }

  /**
   Whole-run refinement, with its exact condition: after any run of writes the device is
   in step with a log if and only if every write was benign, and then that log is the
   fold of the accepted bytes.
   */
  lemma RunRefines(d: Dev, ops: seq<WriteOp>, lg: Log, held: bool)
    requires InStepAs(d, lg, held) && AllLegal(ops)
    ensures BenignRun(lg, held, ops) ==> InStepAs(WriteRun(d, ops), LogRun(lg, ops), HeldRun(lg, held, ops))
    ensures !BenignRun(lg, held, ops) ==> !InStepWithSome(WriteRun(d, ops))
  {
    if BenignRun(lg, held, ops) {
      BenignFollows(d, ops, lg, held);
    } else {
      OthersFallBehind(d, ops, lg, held);
    }
  }

  /** The bytes a run accepted. */
  function AcceptedBytes(ops: seq<WriteOp>): seq<Byte>
    requires AllLegal(ops)
    decreases |ops|
  {
    if ops == [] then [] else Given(ops[0]) + AcceptedBytes(ops[1..])
  }

  lemma LogStepHistory(lg: Log, op: WriteOp)
    requires Legal(op)
    ensures History(LogStep(lg, op)) == History(lg) + Given(op)
  {
    if op.alloc.Refused? {
      assert History(lg) + [] == History(lg);
    } else {
      AcceptAtHistory(lg, Accepted(op), op.before);
    }
  }

  /** Conservation over a run: the log's packets and tail are the accepted bytes, in order. */
  lemma {:induction false} RunConserves(lg: Log, ops: seq<WriteOp>)
    requires AllLegal(ops)
    ensures History(LogRun(lg, ops)) == History(lg) + AcceptedBytes(ops)
    decreases |ops|
  {
    if ops == [] {
      assert History(lg) + [] == History(lg);
    } else {
      LogStepHistory(lg, ops[0]);
      RunConserves(LogStep(lg, ops[0]), ops[1..]);
      Reassociate(History(lg), Given(ops[0]), AcceptedBytes(ops[1..]));
    }
  }

  /** The write leaves the working entry empty and finds a newline before its block. */
  predicate Stray(lg: Log, op: WriteOp)
    requires Legal(op)
  {
    !op.alloc.Refused? && lg.pending + Accepted(op) == [] && op.before == NEWLINE
  }

  predicate NoStray(lg: Log, ops: seq<WriteOp>)
    requires AllLegal(ops)
    decreases |ops|
  {
    ops == [] || (!Stray(lg, ops[0]) && NoStray(LogStep(lg, ops[0]), ops[1..]))
  }

  /** Every packet of a run ends in a newline if and only if no stray newline was found. */
  lemma {:induction false} ProperRun(lg: Log, ops: seq<WriteOp>)
    requires WellFormed(lg) && AllLegal(ops)
    ensures Proper(LogRun(lg, ops)) <==> Proper(lg) && NoStray(lg, ops)
    decreases |ops|
  {
    if ops != [] {
      AcceptAtWellFormed(lg, Accepted(ops[0]), ops[0].before);
      ProperRun(LogStep(lg, ops[0]), ops[1..]);
    }
  }

  /**
   From boot, for every run of writes: the device is in step with a log if and only if
   every write was benign. Then its offsets, flag and cached length are functions of the
   fold of the accepted bytes, its entries hold the last ten packets and the tail, no
   byte is lost, no allocation rule is broken, and every packet ends in a newline if
   and only if no empty working entry ever lay behind one.
   */
  lemma WholeRun(ops: seq<WriteOp>)
    requires AllLegal(ops)
    ensures InStepWithSome(WriteRun(BOOT, ops)) <==> BenignRun(EMPTY, false, ops)
    ensures BenignRun(EMPTY, false, ops) ==>
              && InFullStep(WriteRun(BOOT, ops), LogRun(EMPTY, ops), HeldRun(EMPTY, false, ops))
              && History(LogRun(EMPTY, ops)) == AcceptedBytes(ops)
              && (Proper(LogRun(EMPTY, ops)) <==> NoStray(EMPTY, ops))
  {
    BootRefines();
    RunRefines(BOOT, ops, EMPTY, false);
    RunConserves(EMPTY, ops);
    ProperRun(EMPTY, ops);
    assert History(EMPTY) + AcceptedBytes(ops) == AcceptedBytes(ops);
    if BenignRun(EMPTY, false, ops) {
      RefinesInFull(WriteRun(BOOT, ops), LogRun(EMPTY, ops));
    }
  }

  /** Refines, with every field of the device spelled out against the log. */
  ghost predicate InFullStep(d: Dev, lg: Log, held: bool) {
    && Shaped(d.ring)
    && LiveHolds(d.ring, d.heap, Retained(lg.packets))
    && Counts(d.ring, |lg.packets|)
    && (|Content(lg)| < SIZE_MOD ==> d.ring.bufLen == |Content(lg)|)
    && (if held then Holds(d.heap, d.working, lg.pending) else d.working == NO_ENTRY && lg.pending == [])
    && Sound(d.heap) && !d.oops
    && d.heap.blocks.Keys == Held(d.ring.entry) + PtrSet(d.working.buffptr)
    && Held(d.ring.entry) !! PtrSet(d.working.buffptr)
    && DistinctPtrs(d.ring.entry)
    && d.ring.overflow.buffptr == NULL
  }

  lemma RefinesInFull(d: Dev, lg: Log)
    requires Refines(d, lg)
    ensures InFullStep(d, lg, d.working.buffptr != NULL)
  {
    LiveSizes(d.ring, d.heap, Retained(lg.packets));
    WrappedFits(Total(d.ring));
    assert d.heap.blocks.Keys == Held(d.ring.entry) + PtrSet(d.working.buffptr) + {};
  }

  /** The live entries are as long as the packets they hold. */
  lemma LiveSizes(r: Ring, heap: Ledger, ps: seq<Packet>)
    requires Shaped(r) && LiveHolds(r, heap, ps)
    ensures Sizes(Live(r)) == Lengths(ps)
    ensures Total(r) == |Flatten(ps)|
  {
    forall k | 0 <= k < |ps|
      ensures Sizes(Live(r))[k] == Lengths(ps)[k]
    {
      assert Holds(heap, Live(r)[k], ps[k]);
    }
    assert Sizes(Live(r)) == Lengths(ps);
    FlattenLength(ps);
  }

  /**
   A refused request while a byte is pending: its block is never freed, so the guard in
   WholeRun cannot be dropped.
   */
  lemma RefusalLeaks()
    ensures var ops := [WriteOp([65], 1, Moved, [], 0), WriteOp([NEWLINE], 1, Refused, [], 0)];
            && AllLegal(ops) && !LeakFree(EMPTY, false, ops) && !BenignRun(EMPTY, false, ops)
            && Cleanup(WriteRun(BOOT, ops)).blocks != map[]
  {
    var first, second := WriteOp([65], 1, Moved, [], 0), WriteOp([NEWLINE], 1, Refused, [], 0);
    var ops := [first, second];
    assert Accepted(first) == [65] && ops[1..] == [second];
    assert AcceptAt(EMPTY, [65], 0) == Log([], [65]);
    CleanupAfterRun(ops);
  }

  /** A write of no bytes to a device without a tail faults. */
  lemma EmptyWriteFaults(d: Dev, lg: Log, before: Byte)
    requires Refines(d, lg) && lg.pending == []
    ensures WriteStep(d, WriteOp([], 0, Moved, [], before)).1 == Stuck
  {
    NotBenign(d, WriteOp([], 0, Moved, [], before), lg);
  }

  /**
   A byte that cannot be copied to an idle device: the byte before the new block decides
   between no packet and an empty one.
   */
  lemma StrayByteCommits(before: Byte)
    ensures var (d, result) := WriteStep(BOOT, WriteOp([65], 0, Moved, [], before));
            && result == Wrote(0)
            && Refines(d, Log(if before == NEWLINE then [[]] else [], []))
  {
    BootRefines();
    var op := WriteOp([65], 0, Moved, [], before);
    WriteRefines(BOOT, op, EMPTY);
    NothingAccepted(op);
  }

  lemma NothingAccepted(op: WriteOp)
    requires op.copied == 0 && !op.alloc.Refused?
    ensures LogStep(EMPTY, op) == Log(if op.before == NEWLINE then [[]] else [], [])
  {
    assert EMPTY.pending + Accepted(op) == [];
  }

  // ----- cleanup -----

  /** What module cleanup leaves of the ledger. */
  function Cleanup(d: Dev): Ledger {
    Kfree(FreeSlots(d.heap, d.ring.entry), d.working.buffptr)
  }

  lemma HeldCons(es: seq<Entry>)
    requires es != []
    ensures Held(es) == PtrSet(es[0].buffptr) + Held(es[1..])
  {
    forall p
      ensures p in Held(es) <==> p in PtrSet(es[0].buffptr) + Held(es[1..])
    {
      if p in Held(es) {
        var i :| 0 <= i < |es| && es[i].buffptr == p && p != NULL;
        if i > 0 {
          HeldIn(es[1..], i - 1);
        }
      }
      if p in Held(es[1..]) {
        var i :| 0 <= i < |es[1..]| && es[1..][i].buffptr == p && p != NULL;
        HeldIn(es, i + 1);
      }
    }
  }

  lemma {:induction false} FreeSlotsSound(heap: Ledger, es: seq<Entry>)
    requires Sound(heap) && DistinctPtrs(es) && Held(es) <= heap.blocks.Keys
    ensures Sound(FreeSlots(heap, es))
    ensures FreeSlots(heap, es).blocks.Keys == heap.blocks.Keys - Held(es)
    decreases |es|
  {
    if es != [] {
      HeldCons(es);
      KfreeSound(heap, es[0].buffptr);
      forall p | p in Held(es[1..])
        ensures p in Kfree(heap, es[0].buffptr).blocks
      {
        var i :| 0 <= i < |es[1..]| && es[1..][i].buffptr == p && p != NULL;
        assert es[i + 1].buffptr == p;
      }
      FreeSlotsSound(Kfree(heap, es[0].buffptr), es[1..]);
      assert forall p :: p in heap.blocks && p !in Held(es) ==> p != es[0].buffptr || p == NULL;
    }
  }

  lemma CleanupSafe(d: Dev, lost: set<Ptr>)
    requires Safe(d, lost)
    ensures Sound(Cleanup(d)) && Cleanup(d).blocks.Keys == lost
  {
    FreeSlotsSound(d.heap, d.ring.entry);
    KfreeSound(FreeSlots(d.heap, d.ring.entry), d.working.buffptr);
  }

  /** No request was refused while the working entry had a block, up to the point where the driver faults. */
  predicate LeakFree(lg: Log, held: bool, ops: seq<WriteOp>)
    requires AllLegal(ops)
    decreases |ops|
  {
    ops == [] ||
    if ops[0].alloc.Refused? then
      !held && LeakFree(lg, false, ops[1..])
    else
      lg.pending + ops[0].data == [] || LeakFree(LogStep(lg, ops[0]), HeldStep(lg, ops[0]), ops[1..])
  }

  lemma LeakFreeCons(lg: Log, held: bool, ops: seq<WriteOp>)
    requires AllLegal(ops) && ops != []
    ensures Benign(lg, held, ops[0]) ==>
              LeakFree(lg, held, ops) == LeakFree(LogStep(lg, ops[0]), HeldStep(lg, ops[0]), ops[1..])
    ensures !Benign(lg, held, ops[0]) ==> LeakFree(lg, held, ops) == !ops[0].alloc.Refused?
  {
  }

  /** A write that is not benign ends the matter: it loses a block, or faults and loses none. */
  lemma LostAtOnce(d: Dev, ops: seq<WriteOp>, lg: Log, held: bool)
    requires InStepAs(d, lg, held) && AllLegal(ops) && ops != [] && !Benign(lg, held, ops[0])
    ensures Shaped(d.ring)
    ensures LostBy(d, ops) == {} <==> !ops[0].alloc.Refused?
  {
    RunCons(d, ops);
    NotBenign(d, ops[0], lg);
    if ops[0].alloc.Refused? {
      assert d.working.buffptr in LostBy(d, ops);
    } else {
      OopsStays(WriteStep(d, ops[0]).0, ops[1..]);
    }
  }

  lemma {:induction false} LostIffNotLeakFree(d: Dev, ops: seq<WriteOp>, lg: Log, held: bool)
    requires InStepAs(d, lg, held) && AllLegal(ops)
    ensures LostBy(d, ops) == {} <==> LeakFree(lg, held, ops)
    decreases |ops|
  {
    hide WriteStep, LogStep, HeldStep, Loses, InStepAs;
    InStepShaped(d, lg, held);
    if ops != [] {
      LeakFreeCons(lg, held, ops);
      if Benign(lg, held, ops[0]) {
        RunCons(d, ops);
        StepInStep(d, ops[0], lg, held);
        LostIffNotLeakFree(WriteStep(d, ops[0]).0, ops[1..], LogStep(lg, ops[0]), HeldStep(lg, ops[0]));
      } else {
        LostAtOnce(d, ops, lg, held);
      }
    }
  }

  /**
   Cleanup breaks no allocation rule whatever the run before it did, and it leaves no
   block allocated if and only if no request was refused while the working entry had a
   block. A run that faults counts up to its fault: the ledger is what it was then.
   */
  lemma CleanupAfterRun(ops: seq<WriteOp>)
    requires AllLegal(ops)
    ensures Sound(Cleanup(WriteRun(BOOT, ops)))
    ensures Cleanup(WriteRun(BOOT, ops)).blocks == map[] <==> LeakFree(EMPTY, false, ops)
  {
    BootRefines();
    RunSafe(BOOT, ops, {});
    assert {} + LostBy(BOOT, ops) == LostBy(BOOT, ops);
    CleanupSafe(WriteRun(BOOT, ops), LostBy(BOOT, ops));
    LostIffNotLeakFree(BOOT, ops, EMPTY, false);
  }
}
