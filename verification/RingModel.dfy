/**
 The value of a circular buffer and what adding an entry and looking up a byte
 position mean, stated over the live entries in order, oldest first.
 */
module RingModel {
  import opened Bytes
  import opened PacketLog

  type Ptr = nat

  const NULL: Ptr := 0

  datatype Entry = Entry(buffptr: Ptr, size: nat)

  const NO_ENTRY := Entry(NULL, 0)

  datatype Ring = Ring(
    entry: seq<Entry>,
    overflow: Entry,
    bufLen: nat,
    inOffs: nat,
    outOffs: nat,
    full: bool)

  const NO_RING := Ring(seq(CAPACITY, _ => NO_ENTRY), NO_ENTRY, 0, 0, 0, false)

  /** The ranges of the fields; nothing is removed, so the ring is unrotated until it fills. */
  predicate Shaped(r: Ring) {
    && |r.entry| == CAPACITY
    && r.inOffs < CAPACITY
    && r.outOffs < CAPACITY
    && (r.full ==> r.inOffs == r.outOffs)
  }

  /** i modulo the capacity, for indices less than twice the capacity. */
  function Wrap(i: nat): (w: nat)
    requires i < 2 * CAPACITY
    ensures w == i % CAPACITY
  {
    if i < CAPACITY then i else i - CAPACITY
  }

  function LiveCount(r: Ring): (n: nat)
    requires Shaped(r)
    ensures n <= CAPACITY
  {
    if r.full then CAPACITY else Wrap(r.inOffs + CAPACITY - r.outOffs)
  }

  /** The live entries, oldest first. */
  function Live(r: Ring): (es: seq<Entry>)
    requires Shaped(r)
    ensures |es| == LiveCount(r)
  {
    seq(LiveCount(r), k requires 0 <= k < LiveCount(r) => r.entry[Wrap(r.outOffs + k)])
  }

  lemma LiveAt(r: Ring, k: nat)
    requires Shaped(r) && k < LiveCount(r)
    ensures Live(r)[k] == r.entry[Wrap(r.outOffs + k)]
  {
  }

  function Sizes(es: seq<Entry>): seq<nat> {
    seq(|es|, i requires 0 <= i < |es| => es[i].size)
  }

  function Total(r: Ring): nat
    requires Shaped(r)
  {
    Sum(Sizes(Live(r)))
  }

  /** The ring after an add, and the entry it pushed out, if any. */
  function Add(r: Ring, e: Entry): (Ring, Option<Entry>)
    requires Shaped(r)
  {
    var oldest := r.entry[r.inOffs];
    var next := Wrap(r.inOffs + 1);
    var grown := (r.bufLen + e.size) % SIZE_MOD;
    var r1 := r.(entry := r.entry[r.inOffs := e], overflow := oldest, inOffs := next);
    if r.full then
      (r1.(bufLen := (grown + SIZE_MOD - oldest.size % SIZE_MOD) % SIZE_MOD, outOffs := next), Some(oldest))
    else
      (r1.(bufLen := grown, full := next == r.outOffs), None)
  }

  lemma AddToFull(r: Ring, e: Entry)
    requires Shaped(r) && r.full
    ensures Shaped(Add(r, e).0) && Add(r, e).1 == Some(Live(r)[0])
    ensures Live(Add(r, e).0) == Live(r)[1..] + [e]
  {
    var r' := Add(r, e).0;
    assert Live(r)[0] == r.entry[Wrap(r.outOffs + 0)];
    forall k | 0 <= k < CAPACITY
      ensures Live(r')[k] == (Live(r)[1..] + [e])[k]
    {
      assert Live(r')[k] == r'.entry[Wrap(r'.outOffs + k)];
      assert k < CAPACITY - 1 ==> Wrap(r'.outOffs + k) == Wrap(r.outOffs + k + 1) != r.inOffs;
    }
  }

  lemma AddToSpare(r: Ring, e: Entry)
    requires Shaped(r) && !r.full
    ensures Shaped(Add(r, e).0) && Add(r, e).1 == None
    ensures Live(Add(r, e).0) == Live(r) + [e]
  {
    var r' := Add(r, e).0;
    forall k | 0 <= k <= LiveCount(r)
      ensures Live(r')[k] == (Live(r) + [e])[k]
    {
      assert Live(r')[k] == r'.entry[Wrap(r.outOffs + k)];
      assert k < LiveCount(r) ==> Wrap(r.outOffs + k) != r.inOffs;
    }
  }

  /** An add is a queue push: a full ring drops its oldest entry, and only that one. */
  lemma AddIsPush(r: Ring, e: Entry)
    requires Shaped(r)
    ensures var (r', evicted) := Add(r, e);
            && Shaped(r')
            && evicted == (if r.full then Some(Live(r)[0]) else None)
            && Live(r') == (if r.full then Live(r)[1..] else Live(r)) + [e]
            && r'.full == (LiveCount(r) + 1 >= CAPACITY)
            && r'.entry == r.entry[r.inOffs := e]
            && r'.overflow == r.entry[r.inOffs]
  {
    if r.full {
      AddToFull(r, e);
    } else {
      AddToSpare(r, e);
    }
  }

  lemma SumSizesPush(es: seq<Entry>, e: Entry)
    ensures Sum(Sizes(es + [e])) == Sum(Sizes(es)) + e.size
  {
    assert Sizes(es + [e]) == Sizes(es) + [e.size];
    SumAppend(Sizes(es), [e.size]);
    assert Sum([e.size]) == e.size + Sum([]);
  }

  lemma SumSizesHead(es: seq<Entry>)
    requires es != []
    ensures Sum(Sizes(es)) == es[0].size + Sum(Sizes(es[1..]))
  {
    assert Sizes(es)[1..] == Sizes(es[1..]);
  }

  lemma WrappedAdd(total: nat, size: nat)
    ensures (total % SIZE_MOD + size) % SIZE_MOD == (total + size) % SIZE_MOD
  {
  }

  lemma WrappedSub(total: nat, size: nat)
    requires size <= total
    ensures (total % SIZE_MOD + SIZE_MOD - size % SIZE_MOD) % SIZE_MOD == (total - size) % SIZE_MOD
  {
  }

  lemma WrappedFits(total: nat)
    ensures total < SIZE_MOD ==> total % SIZE_MOD == total
  {
  }

  lemma TotalAfterAdd(r: Ring, e: Entry)
    requires Shaped(r)
    ensures Shaped(Add(r, e).0)
    ensures r.full ==> Add(r, e).1 == Some(Live(r)[0]) && Live(r)[0].size <= Total(r) + e.size
    ensures Total(Add(r, e).0) == Total(r) + e.size - if r.full then Live(r)[0].size else 0
  {
    AddIsPush(r, e);
    if r.full {
      SumSizesHead(Live(r));
      SumSizesPush(Live(r)[1..], e);
    } else {
      SumSizesPush(Live(r), e);
    }
  }

  /**
   The cached length counts the live bytes modulo 2^64 after every add, so it is
   exact whenever they fit, even when the addition itself wraps.
   */
  lemma AddKeepsLength(r: Ring, e: Entry)
    requires Shaped(r) && r.bufLen == Total(r) % SIZE_MOD
    ensures var r' := Add(r, e).0;
            && Shaped(r')
            && r'.bufLen == Total(r') % SIZE_MOD
            && (Total(r') < SIZE_MOD ==> r'.bufLen == Total(r'))
  {
    TotalAfterAdd(r, e);
    WrappedAdd(Total(r), e.size);
    if r.full {
      WrappedSub(Total(r) + e.size, Live(r)[0].size);
    }
    WrappedFits(Total(Add(r, e).0));
  }

  // ----- lookup -----

  datatype Found = Found(slot: nat, offset: nat)

  /** The live entry and the byte in it at a position of the concatenation. */
  function Lookup(r: Ring, pos: nat): Option<Found>
    requires Shaped(r)
  {
    match Locate(Sizes(Live(r)), pos)
    case None => None
    case Some(p) =>
      LocateSound(Sizes(Live(r)), pos);
      Some(Found(Wrap(r.outOffs + p.index), p.offset))
  }

  /**
   What the search returns: adding one to the largest size_t wraps to zero, which
   every entry satisfies, so a non-empty ring answers with its first entry.
   */
  function Search(r: Ring, charOffset: nat): Option<Found>
    requires Shaped(r) && charOffset < SIZE_MOD
  {
    if charOffset == SIZE_MAX && LiveCount(r) > 0
    then Some(Found(r.outOffs, SIZE_MAX))
    else Lookup(r, charOffset)
  }

  /**
   The search is the lookup for every offset but the largest, and for that one exactly when
   the ring is empty.
   */
  lemma SearchIsLookup(r: Ring, charOffset: nat)
    requires Shaped(r) && charOffset < SIZE_MOD && Total(r) < SIZE_MOD
    ensures Search(r, charOffset) == Lookup(r, charOffset)
        <==> (charOffset == SIZE_MAX ==> LiveCount(r) == 0)
  {
    LocateSound(Sizes(Live(r)), charOffset);
  }

  /**
   A ring of one one-byte entry: the largest offset of 64 bits is answered with that entry,
   where there is nothing.
   */
  lemma LargestOffsetIsFound()
    ensures var r := Add(NO_RING, Entry(1, 1)).0;
            && Shaped(r) && Total(r) == 1
            && Search(r, 0xFFFF_FFFF_FFFF_FFFF) == Some(Found(0, 0xFFFF_FFFF_FFFF_FFFF))
            && Lookup(r, 0xFFFF_FFFF_FFFF_FFFF) == None
  {
    var r := Add(NO_RING, Entry(1, 1)).0;
    assert Live(NO_RING) == [];
    AddIsPush(NO_RING, Entry(1, 1));
    SumSizesPush([], Entry(1, 1));
    assert [] + [Entry(1, 1)] == [Entry(1, 1)];
    LocateSound(Sizes(Live(r)), 0xFFFF_FFFF_FFFF_FFFF);
  }

  /** A lookup names the only live entry and offset at that position, and fails exactly past the end. */
  lemma LookupSound(r: Ring, pos: nat)
    requires Shaped(r)
    ensures Lookup(r, pos).None? <==> pos >= Total(r)
    ensures Lookup(r, pos).Some? ==>
              var f := Lookup(r, pos).value;
              exists k :: && 0 <= k < LiveCount(r)
                          && f.slot == Wrap(r.outOffs + k)
                          && Denotes(Sizes(Live(r)), Place(k, f.offset), pos)
  {
    LocateSound(Sizes(Live(r)), pos);
    if Lookup(r, pos).Some? {
      var p := Locate(Sizes(Live(r)), pos).value;
      assert Denotes(Sizes(Live(r)), Place(p.index, p.offset), pos);
    }
  }

  lemma LookupComplete(r: Ring, k: nat, offset: nat)
    requires Shaped(r) && k < LiveCount(r) && offset < Live(r)[k].size
    ensures Lookup(r, Sum(Sizes(Live(r))[..k]) + offset) == Some(Found(Wrap(r.outOffs + k), offset))
  {
    LocateComplete(Sizes(Live(r)), Place(k, offset), Sum(Sizes(Live(r))[..k]) + offset);
  }
}
