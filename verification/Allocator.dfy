/**
 The kernel's krealloc and kfree as a ledger. Every block handed out has an
 identity of its own, so a second free or a use after free is visible for ever
 in the violated flag.
 */
module Allocator {
  import opened Bytes
  import opened RingModel

  datatype Ledger = Ledger(blocks: map<Ptr, seq<Byte>>, freed: set<Ptr>, next: Ptr, violated: bool)

  const FRESH := Ledger(map[], {}, 1, false)

  /** How the allocator answers one request. */
  datatype Alloc = Refused | Grown | Moved

  /** Every identity handed out is either allocated or freed, never both, and no rule was broken. */
  ghost predicate Sound(l: Ledger) {
    && !l.violated
    && l.next > NULL
    && (forall p :: p in l.blocks ==> p !in l.freed)
    && (forall p :: p in l.blocks || p in l.freed <==> Issued(l, p))
  }

  predicate Issued(l: Ledger, p: Ptr) {
    NULL < p < l.next
  }

  function Kfree(l: Ledger, p: Ptr): Ledger {
    if p == NULL then l
    else if p in l.blocks then l.(blocks := l.blocks - {p}, freed := l.freed + {p})
    else l.(violated := true)
  }

  /** aesd_circular_buffer_destroy: free every slot that holds a pointer. */
  function FreeSlots(l: Ledger, es: seq<Entry>): Ledger
    decreases |es|
  {
    if es == [] then l else FreeSlots(Kfree(l, es[0].buffptr), es[1..])
  }

  /** The first n bytes of a block; what lies beyond its old end is whatever the memory held. */
  function Resize(block: seq<Byte>, n: nat, junk: seq<Byte>): (r: seq<Byte>)
    ensures |r| == n
  {
    seq(n, i requires 0 <= i < n =>
      if i < |block| then block[i] else if i < |junk| then junk[i] else 0)
  }

  function Krealloc(l: Ledger, p: Ptr, n: nat, how: Alloc, junk: seq<Byte>): (r: (Ledger, Ptr))
    ensures r.1 != NULL ==> r.1 in r.0.blocks && |r.0.blocks[r.1]| == n
  {
    var l := if p == NULL || p in l.blocks then l else l.(violated := true);
    var block := if p in l.blocks then l.blocks[p] else [];
    if how.Refused? then
      (l, NULL)
    else if how.Grown? && p != NULL then
      (l.(blocks := l.blocks[p := Resize(block, n, junk)]), p)
    else
      var freed := if p in l.blocks then {p} else {};
      var q := l.next;
      (l.(blocks := (l.blocks - {p})[q := Resize(block, n, junk)], freed := l.freed + freed, next := q + 1), q)
  }

  /** Store bytes at an offset of a block. */
  function Store(l: Ledger, p: Ptr, at: nat, bytes: seq<Byte>): (r: Ledger)
    requires p in l.blocks && at + |bytes| <= |l.blocks[p]|
    ensures r.blocks.Keys == l.blocks.Keys && |r.blocks[p]| == |l.blocks[p]|
  {
    var block := l.blocks[p];
    l.(blocks := l.blocks[p := block[..at] + bytes + block[at + |bytes|..]])
  }

  lemma KfreeSound(l: Ledger, p: Ptr)
    requires Sound(l) && (p == NULL || p in l.blocks)
    ensures Sound(Kfree(l, p))
    ensures Kfree(l, p).blocks == l.blocks - {p}
  {
    assert !Issued(l, NULL);
  }

  /** The ledger notices every free of a block that is not allocated, and every request that passes one. */
  lemma RulesWatched(l: Ledger, p: Ptr, n: nat, how: Alloc, junk: seq<Byte>)
    ensures Kfree(l, p).violated <==> l.violated || (p != NULL && p !in l.blocks)
    ensures Krealloc(l, p, n, how, junk).0.violated <==> l.violated || (p != NULL && p !in l.blocks)
  {
  }

  /** Freeing a block twice breaks the rules, as does resizing it after it was freed. */
  lemma SecondFreeViolates(l: Ledger, p: Ptr, n: nat, how: Alloc, junk: seq<Byte>)
    requires p != NULL
    ensures Kfree(Kfree(l, p), p).violated
    ensures Krealloc(Kfree(l, p), p, n, how, junk).0.violated
  {
    RulesWatched(Kfree(l, p), p, n, how, junk);
  }

  /** A successful request keeps the ledger sound, hands over the block and keeps its bytes. */
  lemma KreallocSound(l: Ledger, p: Ptr, n: nat, how: Alloc, junk: seq<Byte>)
    requires Sound(l) && (p == NULL || p in l.blocks)
    ensures var (l', q) := Krealloc(l, p, n, how, junk);
            && Sound(l')
            && (how.Refused? <==> q == NULL)
            && (how.Refused? ==> l' == l)
            && (!how.Refused? ==>
                && l'.blocks.Keys == l.blocks.Keys - {p} + {q}
                && (q == p || q !in l.blocks)
                && (q == p <==> how.Grown? && p != NULL)
                && l'.freed == l.freed + (if q == p || p == NULL then {} else {p})
                && (forall o :: o in l.blocks && o != p ==> o in l'.blocks && l'.blocks[o] == l.blocks[o])
                && (p != NULL && |l.blocks[p]| <= n ==> l'.blocks[q][..|l.blocks[p]|] == l.blocks[p])
                && (p != NULL && n <= |l.blocks[p]| ==> l'.blocks[q] == l.blocks[p][..n]))
  {
    assert !Issued(l, NULL) && !Issued(l, l.next);
    var (l', q) := Krealloc(l, p, n, how, junk);
    if q != NULL && q != p {
      assert l'.freed == l.freed + ({p} - {NULL});
      forall o
        ensures o in l'.blocks || o in l'.freed <==> Issued(l', o)
      {
        assert Issued(l', o) <==> Issued(l, o) || o == q;
      }
    }
  }

  /** Storing into an allocated block changes that block only. */
  lemma StoreSound(l: Ledger, p: Ptr, at: nat, bytes: seq<Byte>)
    requires Sound(l) && p in l.blocks && at + |bytes| <= |l.blocks[p]|
    ensures Sound(Store(l, p, at, bytes))
    ensures forall o :: o in l.blocks && o != p ==> Store(l, p, at, bytes).blocks[o] == l.blocks[o]
  {
    var l' := Store(l, p, at, bytes);
    forall o
      ensures (o in l'.blocks <==> o in l.blocks) && (Issued(l', o) <==> Issued(l, o))
    {
      assert o in l'.blocks.Keys <==> o in l.blocks.Keys;
    }
  }
}
