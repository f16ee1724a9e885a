/** aesd-circular-buffer.c: the ring as the object its functions update in place. */
module CircularBuffer {
  import opened Bytes
  import opened PacketLog
  import opened RingModel
  import Allocator

  class AesdCircularBuffer {
    const entry: array<Entry>
    var overflowEntry: Entry
    var bufLen: nat
    var inOffs: nat
    var outOffs: nat
    var full: bool

    function State(): Ring
      reads this, entry
    {
      Ring(entry[..], overflowEntry, bufLen, inOffs, outOffs, full)
    }

    ghost predicate Valid()
      reads this, entry
    {
      entry.Length == CAPACITY && Shaped(State())
    }

    /** aesd_circular_buffer_init: every field zeroed. */
    constructor ()
      ensures Valid() && fresh(entry) && State() == NO_RING
    {
      entry := new Entry[CAPACITY](_ => NO_ENTRY);
      overflowEntry := NO_ENTRY;
      bufLen, inOffs, outOffs, full := 0, 0, 0, false;
      new;
      assert entry[..] == NO_RING.entry;
    }

    /**
     aesd_circular_buffer_add_entry. The source returns a pointer to overflow_entry
     when the ring was full and NULL otherwise; the flag says which.
     */
    method AddEntry(addEntry: Entry) returns (overwritten: bool)
      requires Valid()
      modifies this, entry
      ensures Valid()
      ensures State() == Add(old(State()), addEntry).0
      ensures overwritten == Add(old(State()), addEntry).1.Some?
      ensures overwritten ==> overflowEntry == Add(old(State()), addEntry).1.value
    {
      AddIsPush(State(), addEntry);
      overflowEntry := entry[inOffs];
      entry[inOffs] := addEntry;
      bufLen := (bufLen + addEntry.size) % SIZE_MOD;
      inOffs := (inOffs + 1) % CAPACITY;
      if full {
        overwritten := true;
        bufLen := (bufLen + SIZE_MOD - overflowEntry.size % SIZE_MOD) % SIZE_MOD;
        outOffs := inOffs;
      } else {
        overwritten := false;
        full := inOffs == outOffs;
      }
    }

    /**
     aesd_circular_buffer_find_entry_offset_for_fpos, with the running offsets kept
     modulo 2^64. The live bytes fit in the address space.
     */
    method FindEntryOffsetForFpos(charOffset: nat) returns (found: Option<Found>)
      requires Valid() && charOffset < SIZE_MOD && Total(State()) < SIZE_MOD
      ensures found == Search(State(), charOffset)
    {
      ghost var r := State();
      hide Search, Live, Sum, LiveCount, Wrap;
      SearchEnds(r, charOffset);
      var index := outOffs;
      var curRunningOffset, prevRunningOffset := 0, 0;
      var endIndex;
      if full {
        endIndex := inOffs;
      } else if inOffs == outOffs {
        return None;
      } else {
        endIndex := inOffs;
      }
      ghost var k := 0;
      while true
        invariant 0 <= k < LiveCount(r)
        invariant index == Wrap(r.outOffs + k)
        invariant curRunningOffset == Sum(Sizes(Live(r))[..k]) <= charOffset
        invariant charOffset == SIZE_MAX ==> k == 0
        decreases LiveCount(r) - k
      {
        LiveAt(r, k);
        SearchStep(r, k, curRunningOffset, charOffset);
        prevRunningOffset := curRunningOffset;
        curRunningOffset := (curRunningOffset + entry[index].size) % SIZE_MOD;
        if (charOffset + 1) % SIZE_MOD <= curRunningOffset {
          return Some(Found(index, charOffset - prevRunningOffset));
        }
        NextIndex(r, k);
        index := (index + 1) % CAPACITY;
        k := k + 1;
        if index == endIndex {
          return None;
        }
      }
    }

    /** Where a search starts, and what it comes to when nothing is left to look at. */
    static lemma SearchEnds(r: Ring, charOffset: nat)
      requires Shaped(r) && charOffset < SIZE_MOD
      ensures LiveCount(r) == 0 <==> !r.full && r.inOffs == r.outOffs
      ensures r.outOffs == Wrap(r.outOffs + 0) && Sum(Sizes(Live(r))[..0]) == 0
      ensures LiveCount(r) == 0 ==> Search(r, charOffset) == None
      ensures Sum(Sizes(Live(r))[..LiveCount(r)]) <= charOffset < SIZE_MAX ==> Search(r, charOffset) == None
    {
      var sizes := Sizes(Live(r));
      LocateSound(sizes, charOffset);
      assert sizes[..0] == [] && sizes[..LiveCount(r)] == sizes;
      if LiveCount(r) == 0 {
        assert sizes == [];
      }
    }

    /** The next slot is the next live entry's, until it is the one behind the newest. */
    static lemma NextIndex(r: Ring, k: nat)
      requires Shaped(r) && k < LiveCount(r)
      ensures (Wrap(r.outOffs + k) + 1) % CAPACITY == Wrap(r.outOffs + k + 1)
      ensures Wrap(r.outOffs + k + 1) == r.inOffs <==> k + 1 == LiveCount(r)
    {
    }

    /** One turn of the search: the running sum does not wrap, and the test is the right one. */
    static lemma SearchStep(r: Ring, k: nat, before: nat, charOffset: nat)
      requires Shaped(r) && k < LiveCount(r) && Total(r) < SIZE_MOD && charOffset < SIZE_MOD
      requires before == Sum(Sizes(Live(r))[..k]) <= charOffset && (charOffset == SIZE_MAX ==> k == 0)
      ensures var after := (before + Live(r)[k].size) % SIZE_MOD;
              && after == Sum(Sizes(Live(r))[..k + 1])
              && if (charOffset + 1) % SIZE_MOD <= after
                 then Search(r, charOffset) == Some(Found(Wrap(r.outOffs + k), charOffset - before))
                 else after <= charOffset < SIZE_MAX
    {
      var sizes := Sizes(Live(r));
      PrefixSum(sizes, k);
      WrappedFits(before + sizes[k]);
      if charOffset < before + sizes[k] && charOffset < SIZE_MAX {
        LocateComplete(sizes, Place(k, charOffset - before), charOffset);
      }
      if charOffset == SIZE_MAX {
        assert before == 0;
      }
    }

    static lemma PrefixSum(sizes: seq<nat>, k: nat)
      requires k < |sizes|
      ensures Sum(sizes[..k + 1]) == Sum(sizes[..k]) + sizes[k] <= Sum(sizes)
    {
      assert sizes[..k + 1] == sizes[..k] + [sizes[k]];
      SumAppend(sizes[..k], [sizes[k]]);
      assert Sum([sizes[k]]) == sizes[k] + Sum([]);
      assert sizes == sizes[..k + 1] + sizes[k + 1..];
      SumAppend(sizes[..k + 1], sizes[k + 1..]);
    }

    /** aesd_circular_buffer_destroy, which frees through the allocator's ledger. */
    method Destroy(ledger: Allocator.Ledger) returns (left: Allocator.Ledger)
      requires Valid()
      ensures left == Allocator.FreeSlots(ledger, State().entry)
    {
      left := ledger;
      var index := 0;
      assert entry[..][0..] == entry[..];
      while index < CAPACITY
        invariant 0 <= index <= CAPACITY
        invariant Allocator.FreeSlots(left, entry[..][index..]) == Allocator.FreeSlots(ledger, entry[..])
      {
        assert entry[..][index..][1..] == entry[..][index + 1..];
        if entry[index].buffptr != NULL {
          left := Allocator.Kfree(left, entry[index].buffptr);
        }
        index := index + 1;
      }
    }
  }
}
