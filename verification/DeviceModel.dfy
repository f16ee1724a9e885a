/**
 The device as a value: the ring, the working entry and the allocator's ledger,
 with the write path as a step function, and what every run of writes keeps.
 */
module DeviceModel {
  import opened Bytes
  import PacketLog
  import opened RingModel
  import opened Allocator

  datatype Dev = Dev(ring: Ring, working: Entry, nextRead: nat, heap: Ledger, oops: bool)

  const BOOT := Dev(NO_RING, NO_ENTRY, 0, FRESH, false)

  /**
   One write call: the user's bytes, how many of them could be copied, the allocator's
   answer, and the byte that lies in memory before the working entry's block.
   */
  datatype WriteOp = WriteOp(data: seq<Byte>, copied: nat, alloc: Alloc, junk: seq<Byte>, before: Byte)

  predicate Legal(op: WriteOp) {
    op.copied <= |op.data|
  }

  function Accepted(op: WriteOp): seq<Byte>
    requires Legal(op)
  {
    op.data[..op.copied]
  }

  /** Stuck: the kernel faulted with the device lock held. */
  datatype WriteResult = Wrote(count: nat) | NoMemory | Stuck

  /** Grow the working entry and copy the user's bytes behind what it holds. */
  function Stage(d: Dev, op: WriteOp): (r: Dev)
    requires Legal(op)
    ensures r.working.buffptr != NULL ==>
              r.working.buffptr in r.heap.blocks && r.working.size <= |r.heap.blocks[r.working.buffptr]|
  {
    var (heap, q) := Krealloc(d.heap, d.working.buffptr, d.working.size + |op.data|, op.alloc, op.junk);
    if q == NULL then
      d.(heap := heap, working := Entry(NULL, d.working.size))
    else
      var padding := seq(|op.data| - op.copied, _ => 0);
      d.(heap := Store(heap, q, d.working.size, Accepted(op) + padding),
         working := Entry(q, d.working.size + op.copied))
  }

  /** Push the working entry into the ring, free what it pushed out, and start afresh. */
  function Commit(d: Dev): Dev
    requires Shaped(d.ring)
  {
    var (ring, evicted) := Add(d.ring, d.working);
    if evicted.Some? then
      d.(ring := ring.(overflow := Entry(NULL, evicted.value.size)),
         heap := Kfree(d.heap, evicted.value.buffptr),
         working := NO_ENTRY)
    else
      d.(ring := ring, working := NO_ENTRY)
  }

  /** The byte at index size - 1; for an empty entry this is the one before its block. */
  function LastByte(heap: Ledger, e: Entry, before: Byte): Byte
    requires e.buffptr != NULL ==> e.buffptr in heap.blocks && e.size <= |heap.blocks[e.buffptr]|
  {
    if e.buffptr == NULL || e.size == 0 then before else heap.blocks[e.buffptr][e.size - 1]
  }

  /**
   Look at the last byte, and commit if it is a newline. When nothing was asked for
   either, the block is the allocator's zero-size one, which may not be looked at.
   */
  function Settle(staged: Dev, op: WriteOp): (Dev, WriteResult)
    requires Shaped(staged.ring)
    requires staged.working.buffptr != NULL ==>
               && staged.working.buffptr in staged.heap.blocks
               && staged.working.size <= |staged.heap.blocks[staged.working.buffptr]|
  {
    var e := staged.working;
    if e.buffptr == NULL then
      (staged, NoMemory)
    else if e.size == 0 && op.data == [] then
      (staged.(oops := true), Stuck)
    else if LastByte(staged.heap, e, op.before) == NEWLINE then
      (Commit(staged), Wrote(op.copied))
    else
      (staged, Wrote(op.copied))
  }

  function WriteStep(d: Dev, op: WriteOp): (Dev, WriteResult)
    requires Legal(op) && Shaped(d.ring)
  {
    if d.oops then (d, Stuck) else Settle(Stage(d, op), op)
  }

  // ----- ownership -----

  predicate Fits(heap: Ledger, e: Entry) {
    e.buffptr != NULL && e.buffptr in heap.blocks && e.size <= |heap.blocks[e.buffptr]|
  }

  predicate LiveSlot(r: Ring, i: nat) {
    r.full || i < r.inOffs
  }

  ghost function Held(es: seq<Entry>): set<Ptr> {
    set i | 0 <= i < |es| && es[i].buffptr != NULL :: es[i].buffptr
  }

  ghost predicate DistinctPtrs(es: seq<Entry>) {
    forall i, j :: 0 <= i < j < |es| && es[i].buffptr != NULL ==> es[i].buffptr != es[j].buffptr
  }

  function PtrSet(p: Ptr): set<Ptr> {
    if p == NULL then {} else {p}
  }

  ghost predicate RingOwned(r: Ring, heap: Ledger) {
    && Shaped(r)
    && (!r.full ==> r.outOffs == 0)
    && (forall i :: 0 <= i < PacketLog.CAPACITY ==>
          if LiveSlot(r, i) then Fits(heap, r.entry[i]) else r.entry[i] == NO_ENTRY)
    && DistinctPtrs(r.entry)
    && r.overflow.buffptr == NULL
  }

  /** Every key has exactly one owner: a slot, the working entry, or nobody any more. */
  ghost predicate Shared(keys: set<Ptr>, held: set<Ptr>, own: set<Ptr>, lost: set<Ptr>) {
    held !! own && held !! lost && own !! lost && keys == held + own + lost
  }

  /**
   Every allocated block has exactly one owner: a live slot, the working entry, or
   the set of blocks whose pointer was lost. Nothing was freed twice or touched after.
   */
  ghost predicate Safe(d: Dev, lost: set<Ptr>) {
    && Sound(d.heap)
    && RingOwned(d.ring, d.heap)
    && (d.working.buffptr != NULL ==> Fits(d.heap, d.working))
    && Shared(d.heap.blocks.Keys, Held(d.ring.entry), PtrSet(d.working.buffptr), lost)
  }

  lemma HeldUpdate(es: seq<Entry>, i: nat, e: Entry)
    requires i < |es| && DistinctPtrs(es) && e.buffptr !in Held(es)
    ensures DistinctPtrs(es[i := e])
    ensures Held(es[i := e]) == Held(es) - PtrSet(es[i].buffptr) + PtrSet(e.buffptr)
  {
    var es' := es[i := e];
    forall j | 0 <= j < |es| && es[j].buffptr != NULL
      ensures es[j].buffptr in Held(es)
    {
    }
    forall j, k | 0 <= j < k < |es| && es'[j].buffptr != NULL
      ensures es'[j].buffptr != es'[k].buffptr
    {
    }
    forall p
      ensures p in Held(es') <==> p in Held(es) - PtrSet(es[i].buffptr) + PtrSet(e.buffptr)
    {
      if p in Held(es') {
        var j :| 0 <= j < |es'| && es'[j].buffptr == p && p != NULL;
        if j != i {
          assert es[j].buffptr == p;
        }
      }
      if p in Held(es) - PtrSet(es[i].buffptr) {
        var j :| 0 <= j < |es| && es[j].buffptr == p && p != NULL;
        assert es'[j].buffptr == p;
      }
      if p in PtrSet(e.buffptr) {
        assert es'[i].buffptr == p;
      }
    }
  }

  /** The block a write loses: the allocator refused while a partial packet was held. */
  function Loses(d: Dev, op: WriteOp): set<Ptr> {
    if !d.oops && op.alloc.Refused? then PtrSet(d.working.buffptr) else {}
  }

  lemma HeldIn(es: seq<Entry>, i: nat)
    requires i < |es| && es[i].buffptr != NULL
    ensures es[i].buffptr in Held(es)
  {
  }

  /** A ring keeps its blocks in a ledger that keeps them. */
  lemma RingOwnedFrame(r: Ring, heap: Ledger, heap': Ledger)
    requires RingOwned(r, heap)
    requires forall o :: o in Held(r.entry) && o in heap.blocks ==>
               o in heap'.blocks && heap'.blocks[o] == heap.blocks[o]
    ensures RingOwned(r, heap')
  {
    forall i | 0 <= i < PacketLog.CAPACITY
      ensures if LiveSlot(r, i) then Fits(heap', r.entry[i]) else r.entry[i] == NO_ENTRY
    {
      if LiveSlot(r, i) {
        HeldIn(r.entry, i);
      }
    }
  }

  /** The working entry's block may move; the owners stay as they were. */
  lemma SharedMoved(keys: set<Ptr>, held: set<Ptr>, lost: set<Ptr>, p: Ptr, q: Ptr)
    requires NULL !in keys && Shared(keys, held, PtrSet(p), lost)
    requires q != NULL && (q == p || q !in keys)
    ensures Shared(keys - {p} + {q}, held, PtrSet(q), lost)
  {
  }

  /** A granted request gives the working entry its block, cleared and copied into behind the tail. */
  lemma StageGranted(d: Dev, op: WriteOp)
    requires Legal(op) && !op.alloc.Refused? && d.heap.next != NULL
    ensures var (heap, q) := Krealloc(d.heap, d.working.buffptr, d.working.size + |op.data|, op.alloc, op.junk);
            && q != NULL && q in heap.blocks && |heap.blocks[q]| == d.working.size + |op.data|
            && Stage(d, op) ==
               d.(heap := Store(heap, q, d.working.size, Accepted(op) + seq(|op.data| - op.copied, _ => 0)),
                  working := Entry(q, d.working.size + op.copied))
  {
  }

  /** What a granted request and the copy do to the ledger and the working entry. */
  lemma StageLedger(d: Dev, op: WriteOp)
    requires Sound(d.heap) && (d.working.buffptr != NULL ==> Fits(d.heap, d.working))
    requires Legal(op) && !op.alloc.Refused?
    ensures var (d', p) := (Stage(d, op), d.working.buffptr);
            var q := d'.working.buffptr;
            && d' == d.(heap := d'.heap, working := d'.working)
            && Sound(d'.heap) && Fits(d'.heap, d'.working)
            && d'.heap.blocks.Keys == d.heap.blocks.Keys - {p} + {q}
            && (q == p || q !in d.heap.blocks)
            && forall o :: o in d.heap.blocks && o != p ==> o in d'.heap.blocks && d'.heap.blocks[o] == d.heap.blocks[o]
  {
    hide Stage, Krealloc, Store;
    StageGranted(d, op);
    KreallocSound(d.heap, d.working.buffptr, d.working.size + |op.data|, op.alloc, op.junk);
    var (heap, q) := Krealloc(d.heap, d.working.buffptr, d.working.size + |op.data|, op.alloc, op.junk);
    StoreSound(heap, q, d.working.size, Accepted(op) + seq(|op.data| - op.copied, _ => 0));
  }

  /** A request that is refused takes the pointer and nothing else. */
  lemma StageRefused(d: Dev, op: WriteOp)
    requires Sound(d.heap) && (d.working.buffptr != NULL ==> Fits(d.heap, d.working))
    requires Legal(op) && op.alloc.Refused?
    ensures Stage(d, op) == d.(working := Entry(NULL, d.working.size))
  {
  }

  lemma StageSafe(d: Dev, op: WriteOp, lost: set<Ptr>)
    requires Safe(d, lost) && Legal(op) && !d.oops
    ensures Safe(Stage(d, op), lost + Loses(d, op))
    ensures Stage(d, op).ring == d.ring
    ensures Stage(d, op).working.buffptr == NULL <==> op.alloc.Refused?
    ensures forall o :: o in d.heap.blocks && o != d.working.buffptr ==>
              o in Stage(d, op).heap.blocks && Stage(d, op).heap.blocks[o] == d.heap.blocks[o]
  {
    var d' := Stage(d, op);
    if op.alloc.Refused? {
      StageRefused(d, op);
    } else {
      StageLedger(d, op);
      assert !Issued(d.heap, NULL);
      SharedMoved(d.heap.blocks.Keys, Held(d.ring.entry), lost, d.working.buffptr, d'.working.buffptr);
      RingOwnedFrame(d.ring, d.heap, d'.heap);
      assert lost + Loses(d, op) == lost;
    }
  }

  lemma CommitSafe(d: Dev, lost: set<Ptr>)
    requires Safe(d, lost) && d.working.buffptr != NULL
    ensures Safe(Commit(d), lost)
    ensures d.ring.full ==> Commit(d).heap.blocks == d.heap.blocks - {d.ring.entry[d.ring.inOffs].buffptr}
    ensures !d.ring.full ==> Commit(d).heap == d.heap
    ensures Commit(d).ring.overflow == Entry(NULL, d.ring.entry[d.ring.inOffs].size)
  {
    var r, at := d.ring, d.ring.inOffs;
    var d' := Commit(d);
    AddIsPush(r, d.working);
    HeldUpdate(r.entry, at, d.working);
    if r.full {
      HeldIn(r.entry, at);
      KfreeSound(d.heap, r.entry[at].buffptr);
    }
    assert d'.ring.entry == r.entry[at := d.working];
    forall i | 0 <= i < PacketLog.CAPACITY
      ensures if LiveSlot(d'.ring, i) then Fits(d'.heap, d'.ring.entry[i]) else d'.ring.entry[i] == NO_ENTRY
    {
      if i != at && LiveSlot(r, i) {
        assert d'.ring.entry[i] == r.entry[i] && Fits(d.heap, r.entry[i]);
        assert r.full ==> r.entry[i].buffptr != r.entry[at].buffptr;
      }
    }
  }

  /** Whatever the allocator and the copy do, a write keeps every block singly owned. */
  lemma WriteSafe(d: Dev, op: WriteOp, lost: set<Ptr>)
    requires Safe(d, lost) && Legal(op)
    ensures Safe(WriteStep(d, op).0, lost + Loses(d, op))
  {
    if !d.oops {
      StageSafe(d, op, lost);
      var staged := Stage(d, op);
      var e := staged.working;
      if e.buffptr != NULL && !(e.size == 0 && op.data == []) && LastByte(staged.heap, e, op.before) == NEWLINE {
        CommitSafe(staged, lost + Loses(d, op));
      }
    } else {
      assert lost + Loses(d, op) == lost;
    }
  }

  /** Writes have no part in the position that readers note, and after a fault no part in anything. */
  lemma WriteKeepsNote(d: Dev, op: WriteOp)
    requires Legal(op) && Shaped(d.ring)
    ensures WriteStep(d, op).0.nextRead == d.nextRead
    ensures d.oops ==> WriteStep(d, op) == (d, Stuck)
  {
  }
}
