/** main.c: the character device as the object its file operations update in place. */
module CharDevice {
  import opened Bytes
  import PacketLog
  import opened RingModel
  import opened Allocator
  import opened CircularBuffer
  import opened DeviceModel
  import DeviceRefinement
  import opened ReadModel
  import SeekModel

  /** struct file: the part the driver uses. */
  class File {
    var fPos: nat

    constructor ()
      ensures fPos == 0
    {
      fPos := 0;
    }
  }

  datatype Whence = Set | Cur | End

  /** fixed_size_llseek, assumed to accept exactly the positions 0..size. */
  function LlseekPosition(fpos: nat, off: int, whence: Whence, size: nat): Option<nat> {
    var target := match whence case Set => off case Cur => fpos + off case End => size + off;
    if 0 <= target <= size then Some(target) else None
  }

  /**
   In every reachable state: SEEK_SET accepts exactly the positions within the content or
   at its end, SEEK_CUR moves by the offset and SEEK_END counts from the content's end,
   each exactly as far as that lies within the content too.
   */
  lemma LlseekOnContent(d: Dev, lg: PacketLog.Log, fpos: nat, off: int)
    requires DeviceRefinement.Refines(d, lg) && |PacketLog.Content(lg)| < SIZE_MOD
    ensures var size, bufLen := |PacketLog.Content(lg)|, d.ring.bufLen;
            && LlseekPosition(fpos, off, Set, bufLen) == (if 0 <= off <= size then Some(off) else None)
            && LlseekPosition(fpos, off, Cur, bufLen) == (if 0 <= fpos + off <= size then Some(fpos + off) else None)
            && LlseekPosition(fpos, off, End, bufLen) == (if -size <= off <= 0 then Some(size + off) else None)
  {
    DeviceRefinement.RefinesInFull(d, lg);
    hide DeviceRefinement.Refines, DeviceRefinement.LiveHolds;
  }

  class AesdDev {
    const buffer: AesdCircularBuffer
    var nextReadPosition: nat
    var workingEntry: Entry
    var locked: bool
    // The kernel around the driver: its allocator, and whether it has faulted.
    var heap: Ledger
    var oops: bool
    // The blocks whose only pointer the driver overwrote.
    ghost var lost: set<Ptr>

    function State(): Dev
      reads this, buffer, buffer.entry
    {
      Dev(buffer.State(), workingEntry, nextReadPosition, heap, oops)
    }

    /** Every block has one owner, but for the lost ones. */
    ghost predicate Owned()
      reads this, buffer, buffer.entry
    {
      Safe(State(), lost)
    }

    /** The device can take a call: nobody holds its lock and the kernel is sane. */
    ghost predicate Ready()
      reads this, buffer, buffer.entry
    {
      buffer.Valid() && !locked && !oops
    }

    /** aesd_init_module. */
    constructor ()
      ensures Ready() && Owned() && State() == BOOT && lost == {} && fresh(buffer) && fresh(buffer.entry)
    {
      buffer := new AesdCircularBuffer();
      nextReadPosition, workingEntry := 0, NO_ENTRY;
      locked, oops, heap, lost := false, false, FRESH, {};
      new;
      DeviceRefinement.BootRefines();
    }

    /**
     aesd_write. The lock is released on every path but the faulting one, and the
     file position moves by what was accepted. The device lets the working entry and
     the user's buffer coexist, so their sizes add up without wrapping.
     */
    method Write(filp: File, op: WriteOp) returns (result: WriteResult)
      requires Ready() && Owned() && Legal(op) && workingEntry.size + |op.data| < SIZE_MOD
      modifies this, buffer, buffer.entry, filp
      ensures buffer.Valid() && Owned()
      ensures State() == WriteStep(old(State()), op).0
      ensures result == WriteStep(old(State()), op).1
      ensures lost == old(lost) + Loses(old(State()), op)
      ensures filp.fPos == old(filp.fPos) + if result.Wrote? then result.count else 0
      ensures locked == oops == result.Stuck?
    {
      ghost var d := State();
      WriteSafe(d, op, lost);
      lost := lost + Loses(d, op);
      locked := true;
      GrowWorkingEntry(op);
      result := SettleWorkingEntry(op);
      if result.Wrote? {
        filp.fPos := filp.fPos + op.copied;
      }
      locked := result.Stuck?;
    }

    /** The part of aesd_write that looks for a newline in the last byte. */
    method SettleWorkingEntry(op: WriteOp) returns (result: WriteResult)
      requires buffer.Valid() && !oops
      requires workingEntry.buffptr != NULL ==>
                 workingEntry.buffptr in heap.blocks && workingEntry.size <= |heap.blocks[workingEntry.buffptr]|
      modifies this`workingEntry, this`heap, this`oops, buffer, buffer.entry
      ensures buffer.Valid()
      ensures State() == Settle(old(State()), op).0 && result == Settle(old(State()), op).1
      ensures oops == result.Stuck? && (result.Wrote? ==> result.count == op.copied)
    {
      if workingEntry.buffptr == NULL {
        return NoMemory;
      }
      var last := op.before;
      if workingEntry.size > 0 {
        last := heap.blocks[workingEntry.buffptr][workingEntry.size - 1];
      } else if op.data == [] {
        oops := true;
        return Stuck;
      }
      if last == NEWLINE {
        CommitWorkingEntry();
      }
      return Wrote(op.copied);
    }

    /** The part of aesd_write that reallocates, clears and copies. */
    method GrowWorkingEntry(op: WriteOp)
      requires Legal(op) && workingEntry.size + |op.data| < SIZE_MOD
      modifies this`workingEntry, this`heap
      ensures State() == Stage(old(State()), op)
    {
      var memSzReqd := (workingEntry.size + |op.data|) % SIZE_MOD;
      var grant := Krealloc(heap, workingEntry.buffptr, memSzReqd, op.alloc, op.junk);
      heap, workingEntry := grant.0, workingEntry.(buffptr := grant.1);
      if workingEntry.buffptr == NULL {
        return;
      }
      heap := Store(heap, workingEntry.buffptr, workingEntry.size, seq(|op.data|, _ => 0));
      heap := Store(heap, workingEntry.buffptr, workingEntry.size, op.data[..op.copied]);
      StoreOverZeros(grant.0, workingEntry.buffptr, workingEntry.size, op);
      workingEntry := workingEntry.(size := workingEntry.size + op.copied);
    }

    /** The part of aesd_write that hands a finished packet to the ring. */
    method CommitWorkingEntry()
      requires buffer.Valid()
      modifies this`workingEntry, this`heap, buffer, buffer.entry
      ensures buffer.Valid() && State() == Commit(old(State()))
    {
      var overwritten := buffer.AddEntry(workingEntry);
      if overwritten {
        heap := Kfree(heap, buffer.overflowEntry.buffptr);
        buffer.overflowEntry := buffer.overflowEntry.(buffptr := NULL);
      }
      workingEntry := NO_ENTRY;
    }

    /** Clearing the new space and copying into it leaves the copied bytes, then zeros. */
    static lemma StoreOverZeros(l: Ledger, p: Ptr, at: nat, op: WriteOp)
      requires Legal(op) && p in l.blocks && |l.blocks[p]| == at + |op.data|
      ensures Store(Store(l, p, at, seq(|op.data|, _ => 0)), p, at, op.data[..op.copied])
           == Store(l, p, at, Accepted(op) + seq(|op.data| - op.copied, _ => 0))
    {
      var zeros := seq(|op.data|, _ => 0);
      var padding := seq(|op.data| - op.copied, _ => 0);
      var block := l.blocks[p];
      var once := block[..at] + zeros + block[at + |op.data|..];
      assert once[..at] == block[..at] && once[at + op.copied..] == padding;
      assert block[at + |op.data|..] == [];
      assert once[..at] + op.data[..op.copied] + once[at + op.copied..]
          == block[..at] + (Accepted(op) + padding) + block[at + |op.data|..];
    }

    /**
     aesd_read: the position is noted before the lock is taken. No position the kernel
     passes reaches the largest size_t, and the live bytes fit in memory.
     */
    method Read(filp: File, count: nat, copyOk: bool) returns (result: ReadResult)
      requires Ready() && Owned() && filp.fPos < SIZE_MAX && Total(buffer.State()) < SIZE_MOD
      modifies this, filp
      ensures Ready() && Owned() && lost == old(lost)
      ensures var f := FetchStep(NoteStep(old(State()), old(filp.fPos)), old(filp.fPos), count, copyOk);
              State() == f.dev && filp.fPos == f.fpos && result == f.result
    {
      SafeNote(State(), lost, filp.fPos);
      nextReadPosition := filp.fPos;
      locked := true;
      result := FetchNoted(filp, count, copyOk);
      locked := false;
    }

    /** The part of aesd_read under the lock. */
    method FetchNoted(filp: File, count: nat, copyOk: bool) returns (result: ReadResult)
      requires buffer.Valid() && Owned() && nextReadPosition < SIZE_MAX && Total(buffer.State()) < SIZE_MOD
      modifies this`nextReadPosition, filp
      ensures Owned()
      ensures var f := FetchStep(old(State()), old(filp.fPos), count, copyOk);
              State() == f.dev && filp.fPos == f.fpos && result == f.result
    {
      ghost var d := State();
      hide Search, Lookup, Safe, Total;
      var found := buffer.FindEntryOffsetForFpos(nextReadPosition);
      SearchIsLookup(buffer.State(), nextReadPosition);
      if found.None? {
        nextReadPosition := 0;
        result := Got([]);
      } else {
        FoundFits(d, lost, nextReadPosition);
        var e := buffer.entry[found.value.slot];
        var retsize := e.size - found.value.offset;
        if retsize > count {
          retsize := count;
        }
        if copyOk {
          result := Got(heap.blocks[e.buffptr][found.value.offset..found.value.offset + retsize]);
          nextReadPosition := nextReadPosition + retsize;
          filp.fPos := filp.fPos + retsize;
        } else {
          result := BadAddress;
        }
      }
      SafeNote(d, lost, nextReadPosition);
    }

    static lemma SafeNote(d: Dev, lost: set<Ptr>, pos: nat)
      requires Safe(d, lost)
      ensures Safe(NoteStep(d, pos), lost)
    {
    }

    /** The entry a lookup finds is live, so its block is allocated and long enough. */
    static lemma FoundFits(d: Dev, lost: set<Ptr>, pos: nat)
      requires Safe(d, lost) && Lookup(d.ring, pos).Some?
      ensures var f := Lookup(d.ring, pos).value;
              && f.slot < PacketLog.CAPACITY
              && Fits(d.heap, d.ring.entry[f.slot]) && f.offset < d.ring.entry[f.slot].size
    {
      FoundLive(d.ring, pos);
    }

    static lemma FoundLive(r: Ring, pos: nat)
      requires Shaped(r) && (!r.full ==> r.outOffs == 0) && Lookup(r, pos).Some?
      ensures var f := Lookup(r, pos).value;
              && f.slot < PacketLog.CAPACITY && LiveSlot(r, f.slot) && f.offset < r.entry[f.slot].size
    {
      LookupSound(r, pos);
      var f := Lookup(r, pos).value;
      var k :| 0 <= k < LiveCount(r) && f.slot == Wrap(r.outOffs + k)
               && PacketLog.Denotes(Sizes(Live(r)), PacketLog.Place(k, f.offset), pos);
      assert Live(r)[k] == r.entry[f.slot];
    }

    /**
     aesd_adjust_file_offset. A command number of ten or more reaches the unlock with
     no device pointer set, which the model records as a kernel fault.
     */
    method AdjustFileOffset(filp: File, writecmd: nat, writecmdOffset: nat) returns (result: SeekModel.SeekResult)
      requires Ready()
      modifies this, filp
      ensures result == SeekModel.SeekStep(old(buffer.State()), writecmd, writecmdOffset)
      ensures filp.fPos == if result.Sought? then result.pos else old(filp.fPos)
      ensures buffer.Valid() && lost == old(lost) && !locked
      ensures State() == old(State()).(oops := result.WildUnlock?)
    {
      if writecmd >= PacketLog.CAPACITY {
        oops := true;
        return SeekModel.WildUnlock;
      }
      locked := true;
      if !buffer.full && buffer.inOffs == buffer.outOffs {
        locked := false;
        return SeekModel.Invalid;
      }
      var pos, found, index := 0, false, 0;
      ghost var es := buffer.entry[..];
      while index < PacketLog.CAPACITY
        invariant 0 <= index <= PacketLog.CAPACITY && !found
        invariant index <= writecmd ==> pos == SeekModel.SlotBytes(es[..index])
        invariant index > writecmd ==> es[writecmd].buffptr == NULL
        invariant unchanged(buffer) && unchanged(buffer.entry) && unchanged(filp)
        invariant es == buffer.entry[..] && locked && lost == old(lost) && State() == old(State())
      {
        var e := buffer.entry[index];
        if e.buffptr != NULL {
          if index == writecmd {
            if writecmdOffset > e.size {
              locked := false;
              return SeekModel.Invalid;
            }
            pos := pos + writecmdOffset;
            found := true;
            break;
          } else {
            pos := pos + e.size;
          }
        }
        assert es[..index + 1] == es[..index] + [es[index]];
        SeekModel.SlotBytesPush(es[..index], es[index]);
        index := index + 1;
      }
      if !found {
        locked := false;
        return SeekModel.Invalid;
      }
      filp.fPos := pos;
      locked := false;
      return SeekModel.Sought(pos);
    }

    /** aesd_llseek: the cached length bounds the position. */
    method Llseek(filp: File, off: int, whence: Whence) returns (moved: Option<nat>)
      requires Ready()
      modifies this`locked, filp
      ensures Ready() && State() == old(State())
      ensures moved == LlseekPosition(old(filp.fPos), off, whence, buffer.bufLen)
      ensures filp.fPos == if moved.Some? then moved.value else old(filp.fPos)
    {
      locked := true;
      moved := LlseekPosition(filp.fPos, off, whence, buffer.bufLen);
      if moved.Some? {
        filp.fPos := moved.value;
      }
      locked := false;
    }

    /**
     What a client sees that calls llseek and then read: the position, moved or refused as
     the content's length says, and the content's bytes from there. At the end there are
     none.
     */
    method LlseekThenRead(filp: File, off: int, whence: Whence, count: nat, ghost lg: PacketLog.Log)
      returns (moved: Option<nat>, result: ReadResult)
      requires Ready() && lost == {} && DeviceRefinement.Refines(State(), lg)
      requires |PacketLog.Content(lg)| < SIZE_MAX && filp.fPos < SIZE_MAX
      modifies this, filp
      ensures Ready() && lost == {} && DeviceRefinement.Refines(State(), lg)
      ensures var size, from := |PacketLog.Content(lg)|, old(filp.fPos);
              match whence
              case Set => moved == if 0 <= off <= size then Some(off) else None
              case Cur => moved == if 0 <= from + off <= size then Some(from + off) else None
              case End => moved == if -size <= off <= 0 then Some(size + off) else None
      ensures var at := if moved.Some? then moved.value else old(filp.fPos);
              && result == Got(PacketLog.ReadAt(PacketLog.Retained(lg.packets), at, count))
              && filp.fPos == at + |result.bytes|
      ensures whence.End? && off == 0 ==> result == Got([]) && filp.fPos == |PacketLog.Content(lg)|
    {
      ghost var d := State();
      LlseekOnContent(d, lg, filp.fPos, off);
      ContentFits(d, lg);
      moved := Llseek(filp, off, whence);
      OwnRead(d, lg, filp.fPos, count);
      PacketLog.ReadAtIsContent(PacketLog.Retained(lg.packets), filp.fPos, count);
      hide DeviceRefinement.Refines, FetchStep, PacketLog.ReadAt;
      result := Read(filp, count, true);
    }

    static lemma ContentFits(d: Dev, lg: PacketLog.Log)
      requires DeviceRefinement.Refines(d, lg) && |PacketLog.Content(lg)| < SIZE_MAX
      ensures Shaped(d.ring) && Total(d.ring) < SIZE_MOD && Safe(d, {})
    {
      DeviceRefinement.LiveSizes(d.ring, d.heap, PacketLog.Retained(lg.packets));
    }

    /** The freeing part of aesd_cleanup_module: exactly the lost blocks stay allocated. */
    method CleanupModule()
      requires buffer.Valid() && Owned()
      modifies this`heap
      ensures heap == DeviceRefinement.Cleanup(old(State()))
      ensures Sound(heap) && heap.blocks.Keys == lost
    {
      DeviceRefinement.CleanupSafe(State(), lost);
      var left := buffer.Destroy(heap);
      heap := left;
      if workingEntry.buffptr != NULL {
        heap := Kfree(heap, workingEntry.buffptr);
      }
    }
  }
}
