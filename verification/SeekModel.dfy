/** Seeking: what AESDCHAR_IOCSEEKTO computes, and how it relates to what lookups see. */
module SeekModel {
  import opened Bytes
  import opened PacketLog
  import opened RingModel
  import Allocator
  import opened DeviceModel
  import opened DeviceRefinement

  /** WildUnlock: the error exit unlocks through a device pointer that was never set. */
  datatype SeekResult = Sought(pos: nat) | Invalid | WildUnlock

  /** The bytes in the slots that hold a pointer. */
  function SlotBytes(es: seq<Entry>): nat {
    if es == [] then 0
    else (if es[0].buffptr != NULL then es[0].size else 0) + SlotBytes(es[1..])
  }

  function SeekStep(r: Ring, writecmd: nat, offset: nat): SeekResult
    requires Shaped(r)
  {
    if writecmd >= CAPACITY then
      WildUnlock
    else if !r.full && r.inOffs == r.outOffs then
      Invalid
    else if r.entry[writecmd].buffptr == NULL || offset > r.entry[writecmd].size then
      Invalid
    else
      Sought(SlotBytes(r.entry[..writecmd]) + offset)
  }

  // ----- the same over the log: slot order is the retained packets, rotated -----

  /** The slot of the oldest retained packet. */
  function OutSlot(packets: seq<Packet>): (out: nat)
    ensures out <= |Retained(packets)|
  {
    if |packets| < CAPACITY then 0 else |packets| % CAPACITY
  }

  /** The newest packets, which have come round to the slots before the oldest packet's. */
  function ComeRound(packets: seq<Packet>): (ps: seq<Packet>)
    ensures |ps| == OutSlot(packets)
  {
    Retained(packets)[|Retained(packets)| - OutSlot(packets)..]
  }

  /** The packets in the slots from the oldest packet's on. */
  function InPlace(packets: seq<Packet>): (ps: seq<Packet>)
    ensures Retained(packets) == ps + ComeRound(packets)
  {
    Retained(packets)[..|Retained(packets)| - OutSlot(packets)]
  }

  /** The retained packets in slot order: committed packet number i sits in slot i mod 10. */
  function Slots(packets: seq<Packet>): (ps: seq<Packet>)
    ensures |ps| == |Retained(packets)|
  {
    ComeRound(packets) + InPlace(packets)
  }

  /** How many retained packets are older than the one in slot k. */
  function Age(packets: seq<Packet>, k: nat): (j: nat)
    requires k < |Slots(packets)|
    ensures j < |Retained(packets)|
  {
    if k >= OutSlot(packets) then k - OutSlot(packets) else k + |Slots(packets)| - OutSlot(packets)
  }

  lemma SlotByAge(packets: seq<Packet>, k: nat)
    requires k < |Slots(packets)|
    ensures Slots(packets)[k] == Retained(packets)[Age(packets, k)]
  {
  }

  /** The live entry of a slot's age is the one in that slot. */
  lemma LiveByAge(r: Ring, packets: seq<Packet>, k: nat)
    requires Shaped(r) && Counts(r, |packets|) && k < |Slots(packets)|
    ensures LiveCount(r) == |Retained(packets)| && r.outOffs == OutSlot(packets)
    ensures Wrap(r.outOffs + Age(packets, k)) == k && Live(r)[Age(packets, k)] == r.entry[k]
  {
    OffsetsByAge(r, packets, k);
    LiveAt(r, Age(packets, k));
  }

  lemma OffsetsByAge(r: Ring, packets: seq<Packet>, k: nat)
    requires Shaped(r) && Counts(r, |packets|) && k < |Slots(packets)|
    ensures LiveCount(r) == |Retained(packets)| && r.outOffs == OutSlot(packets)
    ensures Wrap(r.outOffs + Age(packets, k)) == k
  {
    var n := |packets|;
    if n < CAPACITY {
      assert n % CAPACITY == n;
      WrapIs(n + CAPACITY, n);
      WrapIs(k, k);
    } else {
      WrapIs(r.outOffs + Age(packets, k), k);
    }
  }

  lemma WrapIs(i: nat, w: nat)
    requires i < 2 * CAPACITY && w < CAPACITY && (i == w || i == w + CAPACITY)
    ensures Wrap(i) == w
  {
  }

  function SeekPosition(packets: seq<Packet>, writecmd: nat, offset: nat): SeekResult {
    var slots := Slots(packets);
    if writecmd >= CAPACITY then WildUnlock
    else if writecmd >= |slots| || offset > |slots[writecmd]| then Invalid
    else Sought(|Flatten(slots[..writecmd])| + offset)
  }

  lemma SlotHolds(d: Dev, lg: Log, i: nat)
    requires Refines(d, lg) && i < CAPACITY
    ensures i < |Slots(lg.packets)| ==> Holds(d.heap, d.ring.entry[i], Slots(lg.packets)[i])
    ensures i >= |Slots(lg.packets)| ==> d.ring.entry[i] == NO_ENTRY
  {
    var r := d.ring;
    if i < |Slots(lg.packets)| {
      LiveSlotHolds(r, d.heap, lg.packets, i);
    } else {
      assert !LiveSlot(r, i);
    }
  }

  lemma LiveSlotHolds(r: Ring, heap: Allocator.Ledger, packets: seq<Packet>, i: nat)
    requires RingRefines(r, heap, packets) && i < |Slots(packets)|
    ensures Holds(heap, r.entry[i], Slots(packets)[i])
  {
    LiveByAge(r, packets, i);
    SlotByAge(packets, i);
    assert Holds(heap, Live(r)[Age(packets, i)], Retained(packets)[Age(packets, i)]);
  }

  lemma {:induction false} SlotBytesPush(es: seq<Entry>, e: Entry)
    ensures SlotBytes(es + [e]) == SlotBytes(es) + if e.buffptr != NULL then e.size else 0
  {
    if es == [] {
      assert es + [e] == [e] && [e][1..] == [];
    } else {
      assert (es + [e])[0] == es[0] && (es + [e])[1..] == es[1..] + [e];
      SlotBytesPush(es[1..], e);
    }
  }

  lemma {:induction false} SlotBytesMatch(es: seq<Entry>, ps: seq<Packet>)
    requires |es| == |ps|
    requires forall i :: 0 <= i < |es| ==> es[i].buffptr != NULL && es[i].size == |ps[i]|
    ensures SlotBytes(es) == |Flatten(ps)|
  {
    if es != [] {
      SlotBytesMatch(es[1..], ps[1..]);
    }
  }

  lemma SlotBytesBefore(d: Dev, lg: Log, n: nat)
    requires Refines(d, lg) && n <= |Slots(lg.packets)|
    ensures SlotBytes(d.ring.entry[..n]) == |Flatten(Slots(lg.packets)[..n])|
  {
    forall i | 0 <= i < n
      ensures d.ring.entry[i].buffptr != NULL && d.ring.entry[i].size == |Slots(lg.packets)[i]|
    {
      SlotHolds(d, lg, i);
    }
    SlotBytesMatch(d.ring.entry[..n], Slots(lg.packets)[..n]);
  }

  /** The live entries before the k-th are as long as the packets before the k-th. */
  lemma SizesBefore(sizes: seq<nat>, ps: seq<Packet>, k: nat)
    requires sizes == Lengths(ps) && k <= |ps|
    ensures Sum(sizes[..k]) == |Flatten(ps[..k])|
  {
    FlattenLength(ps[..k]);
    assert Lengths(ps[..k]) == sizes[..k];
  }

  /** A lookup past the k-th live entry's start finds that entry's slot. */
  lemma LookupInEntry(r: Ring, ps: seq<Packet>, k: nat, slot: nat, offset: nat)
    requires Shaped(r) && Sizes(Live(r)) == Lengths(ps) && k < |ps| && offset < |ps[k]|
    requires slot == Wrap(r.outOffs + k)
    ensures Lookup(r, |Flatten(ps[..k])| + offset) == Some(Found(slot, offset))
  {
    SizesBefore(Sizes(Live(r)), ps, k);
    assert Sizes(Live(r))[k] == Lengths(ps)[k];
    LookupComplete(r, k, offset);
  }

  /**
   In every state a benign run reaches, a seek to a slot below ten succeeds exactly when
   the slot holds a packet at least that long, and lands after the slots before it.
   */
  lemma SeekRefines(d: Dev, lg: Log, writecmd: nat, offset: nat)
    requires Refines(d, lg)
    ensures SeekStep(d.ring, writecmd, offset) == SeekPosition(lg.packets, writecmd, offset)
  {
    if writecmd < CAPACITY {
      SlotHolds(d, lg, writecmd);
      if writecmd < |Slots(lg.packets)| {
        SlotBytesBefore(d, lg, writecmd);
      }
    }
  }

  lemma FlattenSwap(a: seq<Packet>, b: seq<Packet>)
    ensures |Flatten(a + b)| == |Flatten(b + a)| == |Flatten(a)| + |Flatten(b)|
  {
    FlattenAppend(a, b);
    FlattenAppend(b, a);
  }

  lemma FlattenPrefix(ps: seq<Packet>, n: nat)
    requires n < |ps|
    ensures |Flatten(ps[..n])| + |ps[n]| <= |Flatten(ps)|
  {
    assert ps == ps[..n] + ([ps[n]] + ps[n + 1..]);
    FlattenAppend(ps[..n], [ps[n]] + ps[n + 1..]);
    assert ([ps[n]] + ps[n + 1..])[1..] == ps[n + 1..];
  }

  /** A successful seek leaves the position inside the content or just past it. */
  lemma SeekInBounds(packets: seq<Packet>, writecmd: nat, offset: nat)
    requires SeekPosition(packets, writecmd, offset).Sought?
    ensures SeekPosition(packets, writecmd, offset).pos <= |Flatten(Retained(packets))|
  {
    FlattenPrefix(Slots(packets), writecmd);
    FlattenSwap(ComeRound(packets), InPlace(packets));
  }

  /**
   In every reachable state: a seek succeeds if and only if the command is below ten, its
   slot holds a packet and the offset is at most its size, and then it stays within
   buf_len; it takes the exit without a device pointer if and only if the command is ten
   or more.
   */
  lemma SeekOutcome(d: Dev, lg: Log, writecmd: nat, offset: nat)
    requires Refines(d, lg) && |Content(lg)| < SIZE_MOD
    ensures var sought := SeekStep(d.ring, writecmd, offset);
            && (sought.Sought? <==>
                 writecmd < CAPACITY && d.ring.entry[writecmd].buffptr != NULL && offset <= d.ring.entry[writecmd].size)
            && (sought.Sought? ==> sought.pos <= d.ring.bufLen)
            && (sought.WildUnlock? <==> writecmd >= CAPACITY)
  {
    RefinesInFull(d, lg);
    ReachablePopulated(d, lg);
    SeekRefines(d, lg, writecmd, offset);
    if SeekPosition(lg.packets, writecmd, offset).Sought? {
      SeekInBounds(lg.packets, writecmd, offset);
    }
    if writecmd < CAPACITY && d.ring.entry[writecmd].buffptr != NULL {
      assert LiveSlot(d.ring, writecmd);
    }
  }

  /** Where the byte at offset of slot k really is in the flat content. */
  function LogicalPosition(packets: seq<Packet>, k: nat, offset: nat): nat
    requires k < |Slots(packets)|
  {
    |Flatten(Retained(packets)[..Age(packets, k)])| + offset
  }

  /** That position is the one a lookup resolves to that slot and offset, rotated or not. */
  lemma LogicalIsLookup(r: Ring, heap: Allocator.Ledger, packets: seq<Packet>, k: nat, offset: nat)
    requires RingRefines(r, heap, packets) && k < |Slots(packets)| && offset < |Slots(packets)[k]|
    ensures Lookup(r, LogicalPosition(packets, k, offset)) == Some(Found(k, offset))
  {
    LiveByAge(r, packets, k);
    SlotByAge(packets, k);
    LiveSizes(r, heap, Retained(packets));
    LookupInEntry(r, Retained(packets), Age(packets, k), k, offset);
  }

  /** The bytes in the slots before the oldest packet's. */
  function Rotation(packets: seq<Packet>): nat {
    |Flatten(Slots(packets)[..OutSlot(packets)])|
  }

  /** The length of a prefix of two lists end to end. */
  lemma PrefixOfJoin(a: seq<Packet>, b: seq<Packet>, n: nat)
    requires n <= |a| + |b|
    ensures |Flatten((a + b)[..n])|
         == if n <= |a| then |Flatten(a[..n])| else |Flatten(a)| + |Flatten(b[..n - |a|])|
  {
    if n <= |a| {
      assert (a + b)[..n] == a[..n];
    } else {
      assert (a + b)[..n] == a + b[..n - |a|];
      FlattenAppend(a, b[..n - |a|]);
    }
  }

  /**
   The bytes before a packet in slot order and in age order differ by the list that comes
   first in one and last in the other.
   */
  lemma RotatedPrefixes(a: seq<Packet>, b: seq<Packet>, k: nat)
    requires k < |a| + |b|
    ensures |Flatten((a + b)[..|a|])| == |Flatten(a)|
    ensures |Flatten(b + a)| == |Flatten(b)| + |Flatten(a)|
    ensures k >= |a| ==> |Flatten((a + b)[..k])| == |Flatten((b + a)[..k - |a|])| + |Flatten(a)|
    ensures k < |a| ==> |Flatten((a + b)[..k])| + |Flatten(b)| == |Flatten((b + a)[..k + |b|])|
  {
    PrefixOfJoin(a, b, |a|);
    FlattenAppend(b, a);
    assert a[..|a|] == a && b[..0] == [] && a[..0] == [] && b[..|b|] == b;
    PrefixOfJoin(a, b, k);
    PrefixOfJoin(b, a, if k >= |a| then k - |a| else k + |b|);
  }

  /**
   Seeks count from slot zero and lookups from the oldest packet, so a seek lands the
   rotation further on than the byte it names, modulo the content's length.
   */
  lemma SeekRotation(packets: seq<Packet>, k: nat, offset: nat)
    requires SeekPosition(packets, k, offset).Sought?
    ensures var pos := SeekPosition(packets, k, offset).pos;
            var want := LogicalPosition(packets, k, offset) + Rotation(packets);
            pos == if k >= OutSlot(packets) then want else want - |Flatten(Retained(packets))|
  {
    RotatedPrefixes(ComeRound(packets), InPlace(packets), k);
  }

  lemma RotationIsProper(packets: seq<Packet>)
    requires forall i :: 0 <= i < |packets| ==> packets[i] != []
    requires |packets| >= CAPACITY && |packets| % CAPACITY != 0
    ensures 0 < Rotation(packets) < |Flatten(Retained(packets))|
  {
    var a, b := ComeRound(packets), InPlace(packets);
    RotatedPrefixes(a, b, 0);
    assert a[0] != [] && b[0] != [];
    assert Flatten(a) == a[0] + Flatten(a[1..]);
    assert Flatten(b) == b[0] + Flatten(b[1..]);
  }

  /**
   A successful seek lands on the byte it names exactly when the rotation is no distance,
   or a whole turn.
   */
  lemma SeekLandsIff(packets: seq<Packet>, k: nat, offset: nat)
    requires SeekPosition(packets, k, offset).Sought?
    ensures SeekPosition(packets, k, offset).pos == LogicalPosition(packets, k, offset)
        <==> Rotation(packets) == if k >= OutSlot(packets) then 0 else |Flatten(Retained(packets))|
  {
    SeekRotation(packets, k, offset);
  }

  /**
   When every packet ends in a newline, a successful seek lands on the byte it names
   exactly when the ring is unrotated: fewer than ten packets were committed, or a
   multiple of ten.
   */
  lemma SeekLandsIffUnrotated(lg: Log, k: nat, offset: nat)
    requires Proper(lg) && SeekPosition(lg.packets, k, offset).Sought?
    ensures SeekPosition(lg.packets, k, offset).pos == LogicalPosition(lg.packets, k, offset)
        <==> |lg.packets| < CAPACITY || |lg.packets| % CAPACITY == 0
  {
    SeekLandsIff(lg.packets, k, offset);
    if |lg.packets| < CAPACITY || |lg.packets| % CAPACITY == 0 {
      assert Slots(lg.packets)[..0] == [];
    } else {
      RotationIsProper(lg.packets);
    }
  }

  /**
   Eleven one-byte packets: a seek to slot 0, which holds the newest, lands on the oldest,
   nine bytes early.
   */
  lemma RotatedSeekMisses()
    ensures var packets := seq(11, _ => [NEWLINE]);
            && |Slots(packets)| == CAPACITY
            && SeekPosition(packets, 0, 0) == Sought(0) && LogicalPosition(packets, 0, 0) == 9
  {
    var packets: seq<Packet> := seq(11, _ => [NEWLINE]);
    assert Slots(packets)[..0] == [];
    assert Retained(packets)[..9] == seq(9, _ => [NEWLINE]);
    FlattenOnes(9);
  }

  lemma {:induction false} FlattenOnes(n: nat)
    ensures |Flatten(seq(n, _ => [NEWLINE]))| == n
  {
    if n > 0 {
      var ps: seq<Packet> := seq(n, _ => [NEWLINE]);
      assert ps[1..] == seq(n - 1, _ => [NEWLINE]);
      FlattenOnes(n - 1);
    }
  }

  /** Exactly the live slots hold a pointer. */
  ghost predicate Populated(r: Ring) {
    Shaped(r) && forall i :: 0 <= i < CAPACITY ==> (r.entry[i].buffptr != NULL <==> LiveSlot(r, i))
  }

  lemma ReachablePopulated(d: Dev, lg: Log)
    requires Refines(d, lg)
    ensures Populated(d.ring)
  {
  }

  lemma {:induction false} SlotBytesSum(es: seq<Entry>)
    requires forall i :: 0 <= i < |es| ==> es[i].buffptr != NULL
    ensures SlotBytes(es) == Sum(Sizes(es))
  {
    if es != [] {
      assert Sizes(es)[1..] == Sizes(es[1..]);
      SlotBytesSum(es[1..]);
    }
  }

  /** In an unrotated ring the slots before a live one are the live entries before it. */
  lemma UnrotatedPrefix(r: Ring, k: nat)
    requires Populated(r) && r.outOffs == 0 && k <= LiveCount(r)
    ensures SlotBytes(r.entry[..k]) == Sum(Sizes(Live(r))[..k])
  {
    forall i | 0 <= i < k
      ensures r.entry[i] == Live(r)[i] && r.entry[i].buffptr != NULL
    {
      assert Live(r)[i] == r.entry[Wrap(0 + i)] && LiveSlot(r, i);
    }
    assert r.entry[..k] == Live(r)[..k];
    SlotBytesSum(Live(r)[..k]);
    assert Sizes(Live(r)[..k]) == Sizes(Live(r))[..k];
  }

  /** In an unrotated ring, a seek into a packet followed by a lookup comes back to the slot and offset. */
  lemma SeekThenLookup(r: Ring, k: nat, offset: nat)
    requires Populated(r) && r.outOffs == 0 && k < LiveCount(r) && offset < r.entry[k].size
    ensures SeekStep(r, k, offset).Sought?
    ensures Lookup(r, SeekStep(r, k, offset).pos) == Some(Found(k, offset))
  {
    UnrotatedPrefix(r, k);
    assert Live(r)[k] == r.entry[Wrap(0 + k)];
    LookupComplete(r, k, offset);
  }

  /** In an unrotated ring, seeking to the slot and offset a lookup found restores the position. */
  lemma LookupThenSeek(r: Ring, pos: nat)
    requires Populated(r) && r.outOffs == 0 && pos < Total(r)
    ensures Lookup(r, pos).Some?
    ensures var f := Lookup(r, pos).value; SeekStep(r, f.slot, f.offset) == Sought(pos)
  {
    LocateSound(Sizes(Live(r)), pos);
    var p := Locate(Sizes(Live(r)), pos).value;
    assert Live(r)[p.index] == r.entry[Wrap(0 + p.index)];
    UnrotatedPrefix(r, p.index);
  }

  /** What the header documents: seek into the k-th oldest command. */
  function OrderedSeek(packets: seq<Packet>, k: nat, offset: nat): SeekResult {
    var r := Retained(packets);
    if k >= |r| || offset > |r[k]| then Invalid else Sought(|Flatten(r[..k])| + offset)
  }

  /** Slots hold packets of the same sizes as the retained packets in age order. */
  predicate SameSizes(packets: seq<Packet>) {
    forall k :: 0 <= k < |Retained(packets)| ==> |Slots(packets)[k]| == |Retained(packets)[k]|
  }

  lemma {:induction false} SameLengthPrefixes(a: seq<Packet>, b: seq<Packet>, n: nat)
    requires |a| == |b| && n <= |a| && forall k :: 0 <= k < n ==> |a[k]| == |b[k]|
    ensures |Flatten(a[..n])| == |Flatten(b[..n])|
  {
    FlattenLength(a[..n]);
    FlattenLength(b[..n]);
    assert Lengths(a[..n]) == Lengths(b[..n]);
  }

  /**
   The driver seeks as documented for every command number below ten and every offset
   if and only if each slot holds a packet as long as the retained packet of that age.
   */
  lemma SeekAsDocumented(packets: seq<Packet>)
    ensures (forall k: nat, o: nat :: k < CAPACITY ==> SeekPosition(packets, k, o) == OrderedSeek(packets, k, o))
        <==> SameSizes(packets)
  {
    var r, slots := Retained(packets), Slots(packets);
    if SameSizes(packets) {
      forall k: nat, o: nat | k < CAPACITY
        ensures SeekPosition(packets, k, o) == OrderedSeek(packets, k, o)
      {
        if k < |r| {
          SameLengthPrefixes(slots, r, k);
        }
      }
    } else {
      var k :| 0 <= k < |r| && |slots[k]| != |r[k]|;
      var o := if |slots[k]| < |r[k]| then |r[k]| else |slots[k]|;
      assert SeekPosition(packets, k, o) != OrderedSeek(packets, k, o);
    }
  }
}
