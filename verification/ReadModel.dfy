/** Reading through the device: a store of the position outside the lock, then a locked fetch. */
module ReadModel {
  import opened Bytes
  import opened PacketLog
  import opened RingModel
  import Allocator
  import opened DeviceModel
  import opened DeviceRefinement

  /** BadAddress: the bytes could not be copied to the user. */
  datatype ReadResult = Got(bytes: seq<Byte>) | BadAddress

  datatype Fetched = Fetched(dev: Dev, fpos: nat, result: ReadResult)

  /** The unlocked first statement of a read. */
  function NoteStep(d: Dev, fpos: nat): Dev {
    d.(nextRead := fpos)
  }

  function Peek(heap: Allocator.Ledger, e: Entry, offset: nat, n: nat): seq<Byte> {
    if Fits(heap, e) && offset + n <= e.size then heap.blocks[e.buffptr][offset..offset + n] else []
  }

  /** The locked rest of a read: it looks up the device's noted position, and advances the file's own. */
  function FetchStep(d: Dev, fpos: nat, count: nat, copyOk: bool): Fetched
    requires Shaped(d.ring)
  {
    match Lookup(d.ring, d.nextRead)
    case None => Fetched(d.(nextRead := 0), fpos, Got([]))
    case Some(f) =>
      LookupSound(d.ring, d.nextRead);
      var e := d.ring.entry[f.slot];
      var n := Min(e.size - f.offset, count);
      if !copyOk then
        Fetched(d, fpos, BadAddress)
      else
        Fetched(d.(nextRead := d.nextRead + n), fpos + n, Got(Peek(d.heap, e, f.offset, n)))
  }

  /** The lookup finds exactly the byte of the flat content, or nothing exactly past its end. */
  lemma LookupIsContent(r: Ring, heap: Allocator.Ledger, ps: seq<Packet>, pos: nat)
    requires Shaped(r) && LiveHolds(r, heap, ps)
    ensures Lookup(r, pos).None? <==> pos >= |Flatten(ps)|
    ensures Lookup(r, pos).Some? ==>
              var f := Lookup(r, pos).value;
              && f.slot < CAPACITY
              && f.offset < r.entry[f.slot].size
              && Fits(heap, r.entry[f.slot])
              && heap.blocks[r.entry[f.slot].buffptr][f.offset] == Flatten(ps)[pos]
  {
    LiveSizes(r, heap, ps);
    LocateByte(ps, pos);
    var place := Locate(Lengths(ps), pos);
    if place.Some? {
      assert Holds(heap, Live(r)[place.value.index], ps[place.value.index]);
    }
  }

  lemma PeekHeld(heap: Allocator.Ledger, e: Entry, bytes: seq<Byte>, offset: nat, n: nat)
    requires Holds(heap, e, bytes) && offset + n <= |bytes|
    ensures Peek(heap, e, offset, n) == bytes[offset..offset + n]
  {
    assert heap.blocks[e.buffptr][..e.size][offset..offset + n] == heap.blocks[e.buffptr][offset..offset + n];
  }

  /**
   A fetch returns the log's bytes at the noted position, at most count of them and
   never past the end of one packet; the file's own position moves by that many.
   */
  lemma FetchRefines(d: Dev, lg: Log, fpos: nat, count: nat)
    requires Refines(d, lg)
    ensures var f := FetchStep(d, fpos, count, true);
            var bytes := ReadAt(Retained(lg.packets), d.nextRead, count);
            && f.result == Got(bytes)
            && f.fpos == fpos + |bytes|
            && Refines(f.dev, lg)
            && f.dev == NoteStep(d, if d.nextRead >= |Content(lg)| then 0 else d.nextRead + |bytes|)
  {
    FetchBytes(d, Retained(lg.packets), fpos, count);
    NoteRefines(d, lg, FetchStep(d, fpos, count, true).dev.nextRead);
  }

  /** The part of a live entry that a fetch hands out is the read of its packet. */
  lemma PeekLive(d: Dev, ps: seq<Packet>, pos: nat, count: nat)
    requires Shaped(d.ring) && LiveHolds(d.ring, d.heap, ps) && Lookup(d.ring, pos).Some?
    ensures var f := Lookup(d.ring, pos).value;
            && f.slot < CAPACITY && f.offset <= d.ring.entry[f.slot].size
            && Peek(d.heap, d.ring.entry[f.slot], f.offset, Min(d.ring.entry[f.slot].size - f.offset, count))
               == ReadAt(ps, pos, count)
  {
    LiveSizes(d.ring, d.heap, ps);
    ReadAtPlace(ps, pos, count);
    var p := Locate(Lengths(ps), pos).value;
    var e := Live(d.ring)[p.index];
    assert Holds(d.heap, e, ps[p.index]);
    PeekHeld(d.heap, e, ps[p.index], p.offset, Min(e.size - p.offset, count));
  }

  lemma FetchBytes(d: Dev, ps: seq<Packet>, fpos: nat, count: nat)
    requires Shaped(d.ring) && LiveHolds(d.ring, d.heap, ps)
    ensures var f := FetchStep(d, fpos, count, true);
            var bytes := ReadAt(ps, d.nextRead, count);
            && f.dev == NoteStep(d, if d.nextRead >= |Flatten(ps)| then 0 else d.nextRead + |bytes|)
            && f.fpos == fpos + |bytes|
            && f.result == Got(bytes)
  {
    LookupIsContent(d.ring, d.heap, ps, d.nextRead);
    ReadAtIsContent(ps, d.nextRead, count);
    if Lookup(d.ring, d.nextRead).Some? {
      var e := d.ring.entry[Lookup(d.ring, d.nextRead).value.slot];
      var offset := Lookup(d.ring, d.nextRead).value.offset;
      PeekLive(d, ps, d.nextRead, count);
      assert |Peek(d.heap, e, offset, Min(e.size - offset, count))| == Min(e.size - offset, count);
    }
  }

  /** With its own position noted, a read returns the bytes at the reader's own position. */
  lemma OwnRead(d: Dev, lg: Log, fpos: nat, count: nat)
    requires Refines(d, lg)
    ensures var f := FetchStep(NoteStep(d, fpos), fpos, count, true);
            && Refines(f.dev, lg)
            && f.result == Got(ReadAt(Retained(lg.packets), fpos, count))
            && f.fpos == fpos + |f.result.bytes|
  {
    FetchRefines(NoteStep(d, fpos), lg, fpos, count);
  }

  /**
   The hazard: when another reader notes its position between a reader's note and its
   fetch, the first reader gets the other's bytes and still advances its own position.
   */
  lemma RacingNotes(d: Dev, lg: Log, mine: nat, theirs: nat, count: nat)
    requires Refines(d, lg)
    ensures var f := FetchStep(NoteStep(NoteStep(d, mine), theirs), mine, count, true);
            && f.result == Got(ReadAt(Retained(lg.packets), theirs, count))
            && f.fpos == mine + |f.result.bytes|
  {
    FetchRefines(NoteStep(NoteStep(d, mine), theirs), lg, mine, count);
  }

  /**
   What one read call returns from the packets shown: at their end nothing, and no bytes
   when the copy fails.
   */
  function ReadOnce(ps: seq<Packet>, pos: nat, count: nat, copyOk: bool): ReadResult {
    if pos >= |Flatten(ps)| then Got([]) else if copyOk then Got(ReadAt(ps, pos, count)) else BadAddress
  }

  function Gain(result: ReadResult): nat {
    match result
    case Got(bytes) => |bytes|
    case BadAddress => 0
  }

  /** A fetch in terms of the packets: the result, and where it leaves the two positions. */
  function FetchFrom(d: Dev, ps: seq<Packet>, fpos: nat, count: nat, copyOk: bool): Fetched {
    var result := ReadOnce(ps, d.nextRead, count, copyOk);
    var noted := if d.nextRead >= |Flatten(ps)| then 0 else d.nextRead + Gain(result);
    Fetched(NoteStep(d, noted), fpos + Gain(result), result)
  }

  lemma FetchIsFrom(d: Dev, ps: seq<Packet>, fpos: nat, count: nat, copyOk: bool)
    requires Shaped(d.ring) && LiveHolds(d.ring, d.heap, ps)
    ensures FetchStep(d, fpos, count, copyOk) == FetchFrom(d, ps, fpos, count, copyOk)
  {
    if copyOk {
      FetchBytes(d, ps, fpos, count);
      ReadAtIsContent(ps, d.nextRead, count);
    } else {
      LookupIsContent(d.ring, d.heap, ps, d.nextRead);
    }
  }

  /**
   A read whose copy to the user fails says so and moves neither position; at the end of
   the content there is nothing to copy, and the noted position starts again.
   */
  lemma FailedCopyMovesNothing(d: Dev, lg: Log, fpos: nat, count: nat)
    requires Refines(d, lg)
    ensures FetchStep(d, fpos, count, false)
         == if d.nextRead < |Content(lg)| then Fetched(d, fpos, BadAddress)
            else Fetched(d.(nextRead := 0), fpos, Got([]))
  {
    LookupIsContent(d.ring, d.heap, Retained(lg.packets), d.nextRead);
    hide Refines, Lookup, Flatten;
  }

  /** When the noted position does as well as the reader's own, the content being this long. */
  predicate Harmless(size: nat, noted: nat, mine: nat, count: nat, copyOk: bool) {
    || noted == mine
    || (noted >= size && mine >= size)
    || (copyOk && count == 0 && ((noted >= size && mine == 0) || (mine >= size && noted == 0)))
  }

  /**
   The race, exactly. Whatever other readers and writers did to the noted position
   between a reader's note and its fetch, and whatever they left in the device, the
   fetch comes out as it would have with the reader's own position noted if and only if
   that position is noted, or both lie past the end. A read of no bytes can besides
   not tell position zero from one past the end, after which zero is noted.
   */
  lemma RaceExact(d: Dev, lg: Log, mine: nat, count: nat, copyOk: bool)
    requires Refines(d, lg)
    ensures FetchStep(d, mine, count, copyOk) == FetchStep(NoteStep(d, mine), mine, count, copyOk)
        <==> Harmless(|Content(lg)|, d.nextRead, mine, count, copyOk)
  {
    FetchIsFrom(d, Retained(lg.packets), mine, count, copyOk);
    FetchIsFrom(NoteStep(d, mine), Retained(lg.packets), mine, count, copyOk);
    RaceFrom(d, Retained(lg.packets), mine, count, copyOk);
  }

  lemma RaceFrom(d: Dev, ps: seq<Packet>, mine: nat, count: nat, copyOk: bool)
    ensures FetchFrom(d, ps, mine, count, copyOk) == FetchFrom(NoteStep(d, mine), ps, mine, count, copyOk)
        <==> Harmless(|Flatten(ps)|, d.nextRead, mine, count, copyOk)
  {
    ReadAtIsContent(ps, d.nextRead, count);
    ReadAtIsContent(ps, mine, count);
  }

  /**
   In particular, a second reader's whole read between the first one's note and fetch is
   harmless exactly when it leaves the first one's position noted, or both past the end.
   */
  lemma RacingRead(d: Dev, lg: Log, mine: nat, theirs: nat, asked: nat, count: nat)
    requires Refines(d, lg) && count > 0
    ensures var raced := FetchStep(NoteStep(NoteStep(d, mine), theirs), theirs, asked, true).dev;
            var size := |Content(lg)|;
            var noted := if theirs >= size then 0 else theirs + |ReadAt(Retained(lg.packets), theirs, asked)|;
            && raced.nextRead == noted
            && (FetchStep(raced, mine, count, true) == FetchStep(NoteStep(d, mine), mine, count, true)
                <==> noted == mine || (noted >= size && mine >= size))
  {
    var before := NoteStep(NoteStep(d, mine), theirs);
    FetchRefines(before, lg, theirs, asked);
    var raced := FetchStep(before, theirs, asked, true).dev;
    RaceExact(raced, lg, mine, count, true);
    assert NoteStep(raced, mine) == NoteStep(d, mine);
  }

  /** On a two-byte packet, the raced reader at position 0 is handed the newline at position 1. */
  lemma RacingNotesHurt(d: Dev)
    requires Refines(d, Log([[65, NEWLINE]], []))
    ensures FetchStep(NoteStep(NoteStep(d, 0), 1), 0, 1, true).result == Got([NEWLINE])
    ensures FetchStep(NoteStep(d, 0), 0, 1, true).result == Got([65])
  {
    var lg := Log([[65, NEWLINE]], []);
    RacingNotes(d, lg, 0, 1, 1);
    OwnRead(d, lg, 0, 1);
  }

  /** One write from boot reaches such a device. */
  lemma RacingNotesReachable()
    ensures var op := WriteOp([65, 10], 2, Allocator.Moved, [], 0);
            var d := WriteStep(BOOT, op).0;
            && Refines(d, Log([[65, 10]], []))
            && FetchStep(NoteStep(NoteStep(d, 0), 1), 0, 1, true).result == Got([10])
            && FetchStep(NoteStep(d, 0), 0, 1, true).result == Got([65])
  {
    var op := WriteOp([65, NEWLINE], 2, Allocator.Moved, [], 0);
    assert EMPTY.pending + Accepted(op) == [65, NEWLINE];
    assert LogStep(EMPTY, op) == Log([[65, NEWLINE]], []);
    BootRefines();
    WriteRefines(BOOT, op, EMPTY);
    RacingNotesHurt(WriteStep(BOOT, op).0);
  }

  /** Reading changes nothing but the noted position, on which no promise depends. */
  lemma NoteRefines(d: Dev, lg: Log, fpos: nat)
    requires Refines(d, lg)
    ensures Refines(NoteStep(d, fpos), lg)
  {
  }
}
