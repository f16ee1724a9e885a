/** TAILQ: each back pointer is the link whose fwd field points at the element. */
module TailQueue {
  import opened Links

  /** A head followed by its elements, linked both ways; the head's back names the null-holding link. */
  ghost predicate Linked(s: seq<Link>)
    reads s
  {
    && s != []
    && Distinct(s)
    && (forall i {:trigger s[i].fwd} :: 0 <= i < |s| - 1 ==> s[i].fwd == s[i + 1])
    && s[|s| - 1].fwd == null
    && (forall i {:trigger s[i].back} :: 1 <= i < |s| ==> s[i].back == s[i - 1])
    && s[0].back == s[|s| - 1]
  }

  ghost predicate Tailq(head: Link, ns: seq<Link>)
    reads head, ns
  {
    Linked([head] + ns)
  }

  /** The head and its elements are found at their places in the linked sequence. */
  lemma Places(head: Link, ns: seq<Link>, k: nat)
    requires Tailq(head, ns) && k <= |ns|
    ensures var s := [head] + ns;
            && s[0] == head && s[k] == (if k == 0 then head else ns[k - 1])
            && s[|ns|] == head.back
            && s[k].fwd == (if k < |ns| then ns[k] else null)
            && (k < |ns| ==> ns[k].back == s[k] && ns[k] != head)
            && (k > 0 ==> s[k].back == s[k - 1])
  {
    var s := [head] + ns;
    if k < |ns| {
      assert s[k + 1] == ns[k];
    }
  }

  /** Linking a new element in behind position p - 1 leaves a linked sequence with it at p. */
  lemma LinkedAfterInsert(s: seq<Link>, p: nat, elm: Link)
    requires Distinct(s) && elm !in s && 1 <= p <= |s|
    requires forall i {:trigger s[i].fwd} :: 0 <= i < |s| - 1 && i != p - 1 ==> s[i].fwd == s[i + 1]
    requires forall i {:trigger s[i].back} :: 1 <= i < |s| && i != p ==> s[i].back == s[i - 1]
    requires s[p - 1].fwd == elm && elm.fwd == (if p < |s| then s[p] else null)
    requires elm.back == s[p - 1] && (p < |s| ==> s[p].back == elm && s[|s| - 1].fwd == null)
    requires s[0].back == if p < |s| then s[|s| - 1] else elm
    ensures Linked(Insert(s, p, elm))
  {
    InsertPlaces(s, p, elm);
    hide Insert, Distinct;
    var t := Insert(s, p, elm);
    forall i {:trigger t[i].fwd} | 0 <= i < |t| - 1
      ensures t[i].fwd == t[i + 1]
    {
    }
    forall i {:trigger t[i].back} | 1 <= i < |t|
      ensures t[i].back == t[i - 1]
    {
    }
  }

  /** Linking the neighbours of position p to each other leaves a linked sequence without it. */
  lemma LinkedAfterRemove(s: seq<Link>, p: nat)
    requires Distinct(s) && 1 <= p < |s|
    requires forall i {:trigger s[i].fwd} :: 0 <= i < |s| - 1 && i != p - 1 && i != p ==> s[i].fwd == s[i + 1]
    requires forall i {:trigger s[i].back} :: 1 <= i < |s| && i != p && i != p + 1 ==> s[i].back == s[i - 1]
    requires s[p - 1].fwd == (if p + 1 < |s| then s[p + 1] else null)
    requires p + 1 < |s| ==> s[p + 1].back == s[p - 1] && s[|s| - 1].fwd == null
    requires s[0].back == if p + 1 < |s| then s[|s| - 1] else s[p - 1]
    ensures Linked(Remove(s, p))
  {
    RemovePlaces(s, p);
    hide Remove, Distinct;
    var t := Remove(s, p);
    forall i {:trigger t[i].fwd} | 0 <= i < |t| - 1
      ensures t[i].fwd == t[i + 1]
    {
    }
    forall i {:trigger t[i].back} | 1 <= i < |t|
      ensures t[i].back == t[i - 1]
    {
    }
  }

  /** A head that takes over the ends of a linked sequence stands in for its first link. */
  lemma LinkedNewHead(s: seq<Link>, head: Link)
    requires s != [] && Distinct(s) && forall i :: 1 <= i < |s| ==> s[i] != head
    requires forall i {:trigger s[i].fwd} :: 1 <= i < |s| - 1 ==> s[i].fwd == s[i + 1]
    requires forall i {:trigger s[i].back} :: 2 <= i < |s| ==> s[i].back == s[i - 1]
    requires head.fwd == (if |s| > 1 then s[1] else null)
    requires head.back == (if |s| > 1 then s[|s| - 1] else head)
    requires |s| > 1 ==> s[1].back == head && s[|s| - 1].fwd == null
    ensures Linked(s[0 := head])
  {
    var t := s[0 := head];
    assert t[0] == head && forall i :: 1 <= i < |s| ==> t[i] == s[i];
    forall i {:trigger t[i].fwd} | 0 <= i < |t| - 1
      ensures t[i].fwd == t[i + 1]
    {
    }
    forall i {:trigger t[i].back} | 1 <= i < |t|
      ensures t[i].back == t[i - 1]
    {
    }
  }

  /** TAILQ_INIT */
  method Init(head: Link)
    modifies head
    ensures Tailq(head, [])
  {
    head.fwd := null;
    head.back := head;
  }

  /** TAILQ_INSERT_HEAD */
  method InsertHead(head: Link, elm: Link, ghost ns: seq<Link>)
    requires Tailq(head, ns) && Apart(head, ns, elm)
    modifies head, ns, elm
    ensures Tailq(head, [elm] + ns)
    ensures head.fwd == elm && elm.back == head && elm.fwd == old(head.fwd)
  {
    Places(head, ns, 0);
    ghost var s := [head] + ns;
    elm.fwd := head.fwd;
    if elm.fwd != null {
      head.fwd.back := elm;
    } else {
      head.back := elm;
    }
    head.fwd := elm;
    elm.back := head;
    LinkedAfterInsert(s, 1, elm);
    assert Insert(s, 1, elm) == [head] + ([elm] + ns);
  }

  /** TAILQ_INSERT_BEFORE */
  method InsertBefore(listelm: Link, elm: Link, ghost head: Link, ghost ns: seq<Link>, ghost k: nat)
    requires Tailq(head, ns) && Apart(head, ns, elm) && k < |ns| && ns[k] == listelm
    modifies head, ns, elm
    ensures Tailq(head, Insert(ns, k, elm))
    ensures elm.fwd == listelm && listelm.back == elm
    ensures elm.back == old(listelm.back) && elm.back != null && elm.back.fwd == elm
  {
    Places(head, ns, k);
    ghost var s := [head] + ns;
    elm.back := listelm.back;
    elm.fwd := listelm;
    listelm.back.fwd := elm;
    listelm.back := elm;
    LinkedAfterInsert(s, k + 1, elm);
    InsertBehindHead(head, ns, k, elm);
  }

  /** TAILQ_INSERT_AFTER */
  method InsertAfter(head: Link, listelm: Link, elm: Link, ghost ns: seq<Link>, ghost k: nat)
    requires Tailq(head, ns) && Apart(head, ns, elm) && k < |ns| && ns[k] == listelm
    modifies head, ns, elm
    ensures Tailq(head, Insert(ns, k + 1, elm))
    ensures listelm.fwd == elm && elm.back == listelm && elm.fwd == old(listelm.fwd)
  {
    Places(head, ns, k + 1);
    ghost var s := [head] + ns;
    elm.fwd := listelm.fwd;
    if elm.fwd != null {
      elm.fwd.back := elm;
    } else {
      head.back := elm;
    }
    listelm.fwd := elm;
    elm.back := listelm;
    LinkedAfterInsert(s, k + 2, elm);
    InsertBehindHead(head, ns, k + 1, elm);
  }

  /** TAILQ_INSERT_TAIL */
  method InsertTail(head: Link, elm: Link, ghost ns: seq<Link>)
    requires Tailq(head, ns) && Apart(head, ns, elm)
    modifies head, ns, elm
    ensures Tailq(head, ns + [elm])
    ensures head.back == elm && elm.fwd == null
    ensures elm.back == old(head.back) && elm.back != null && elm.back.fwd == elm
  {
    Places(head, ns, |ns|);
    ghost var s := [head] + ns;
    elm.fwd := null;
    elm.back := head.back;
    head.back.fwd := elm;
    head.back := elm;
    LinkedAfterInsert(s, |s|, elm);
    assert Insert(s, |s|, elm) == [head] + (ns + [elm]);
  }

  /** TAILQ_CONCAT */
  method Concat(head1: Link, head2: Link, ghost ns1: seq<Link>, ghost ns2: seq<Link>)
    requires Tailq(head1, ns1) && Tailq(head2, ns2) && Disjoint(head1, ns1, head2, ns2)
    modifies head1, ns1, head2, ns2
    ensures Tailq(head1, ns1 + ns2) && Tailq(head2, [])
    ensures head1.fwd == (if old(head1.fwd) != null then old(head1.fwd) else old(head2.fwd))
    ensures head1.back == (if old(head2.fwd) != null then old(head2.back) else old(head1.back))
    ensures old(head1.back) != null && old(head1.back).fwd == old(head2.fwd)
  {
    Places(head1, ns1, |ns1|);
    Places(head2, ns2, 0);
    Places(head2, ns2, |ns2|);
    ghost var s1, s2 := [head1] + ns1, [head2] + ns2;
    assert s1[|ns1|] == head1 || s1[|ns1|] in ns1;
    if head2.fwd != null {
      head1.back.fwd := head2.fwd;
      head2.fwd.back := head1.back;
      head1.back := head2.back;
      Init(head2);
      JoinedDistinct(head1, ns1, head2, ns2);
      ghost var s := s1 + ns2;
      forall i {:trigger s[i].fwd} | 0 <= i < |s| - 1
        ensures s[i].fwd == s[i + 1]
      {
        if i >= |s1| {
          assert s[i] == s2[i - |s1| + 1] && s[i + 1] == s2[i - |s1| + 2];
        } else {
          assert s[i] == s1[i];
        }
      }
      forall i {:trigger s[i].back} | 1 <= i < |s|
        ensures s[i].back == s[i - 1]
      {
        if i > |s1| {
          assert s[i] == s2[i - |s1| + 1] && s[i - 1] == s2[i - |s1|];
        } else if i < |s1| {
          assert s[i] == s1[i] && s[i - 1] == s1[i - 1];
        }
      }
      assert s[|s| - 1] == s2[|ns2|] && s2[|ns2|] in ns2 && s1[|ns1|] !in ns2;
      assert Linked(s);
      assert s1 + ns2 == [head1] + (ns1 + ns2);
    } else {
      assert ns1 + ns2 == ns1;
    }
  }

  /** TAILQ_REMOVE */
  method RemoveElm(head: Link, elm: Link, ghost ns: seq<Link>, ghost k: nat)
    requires Tailq(head, ns) && k < |ns| && ns[k] == elm
    modifies head, ns
    ensures Tailq(head, Remove(ns, k))
    ensures elm.fwd == old(elm.fwd) && elm.back == old(elm.back)
    ensures elm.back != null && elm.back.fwd == elm.fwd
    ensures if elm.fwd != null then elm.fwd.back == elm.back else head.back == elm.back
  {
    Places(head, ns, k);
    Places(head, ns, k + 1);
    ghost var s := [head] + ns;
    if elm.fwd != null {
      elm.fwd.back := elm.back;
    } else {
      head.back := elm.back;
    }
    elm.back.fwd := elm.fwd;
    LinkedAfterRemove(s, k + 1);
    RemoveBehindHead(head, ns, k);
  }

  /** TAILQ_REPLACE */
  method Replace(head: Link, elm: Link, elm2: Link, ghost ns: seq<Link>, ghost k: nat)
    requires Tailq(head, ns) && Apart(head, ns, elm2) && k < |ns| && ns[k] == elm
    modifies head, ns, elm2
    ensures Tailq(head, ns[k := elm2])
    ensures elm2.fwd == old(elm.fwd) && elm2.back == old(elm.back) && elm2.back != null && elm2.back.fwd == elm2
    ensures if elm2.fwd != null then elm2.fwd.back == elm2 else head.back == elm2
  {
    Places(head, ns, k);
    Places(head, ns, k + 1);
    ghost var s := [head] + ns;
    elm2.fwd := elm.fwd;
    if elm2.fwd != null {
      elm2.fwd.back := elm2;
    } else {
      head.back := elm2;
    }
    elm2.back := elm.back;
    elm2.back.fwd := elm2;
    assert Linked(s[k + 1 := elm2]);
    assert s[k + 1 := elm2] == [head] + ns[k := elm2];
  }

  /** TAILQ_SWAP; a queue may be swapped with itself. */
  method Swap(head1: Link, head2: Link, ghost ns1: seq<Link>, ghost ns2: seq<Link>)
    requires Tailq(head1, ns1) && Tailq(head2, ns2)
    requires (head1 == head2 && ns1 == ns2) || Disjoint(head1, ns1, head2, ns2)
    modifies head1, ns1, head2, ns2
    ensures Tailq(head1, ns2) && Tailq(head2, ns1)
    ensures head1.fwd == old(head2.fwd) && head2.fwd == old(head1.fwd)
    ensures head1.back == (if old(head2.fwd) != null then old(head2.back) else head1)
    ensures head2.back == (if old(head1.fwd) != null then old(head1.back) else head2)
  {
    Places(head1, ns1, 0);
    Places(head2, ns2, 0);
    ghost var s1, s2 := [head1] + ns1, [head2] + ns2;
    var swapFirst, swapLast := head1.fwd, head1.back;
    head1.fwd := head2.fwd;
    head1.back := head2.back;
    head2.fwd := swapFirst;
    head2.back := swapLast;
    swapFirst := head1.fwd;
    if swapFirst != null {
      swapFirst.back := head1;
    } else {
      head1.back := head1;
    }
    swapFirst := head2.fwd;
    if swapFirst != null {
      swapFirst.back := head2;
    } else {
      head2.back := head2;
    }
    LinkedNewHead(s2, head1);
    LinkedNewHead(s1, head2);
    assert s2[0 := head1] == [head1] + ns2;
    assert s1[0 := head2] == [head2] + ns1;
  }

  // ----- access -----

  /** TAILQ_EMPTY and TAILQ_FIRST */
  function First(head: Link, ghost ns: seq<Link>): (r: Link?)
    requires Tailq(head, ns)
    reads head, ns
    ensures r == if ns == [] then null else ns[0]
  {
    Places(head, ns, 0);
    head.fwd
  }

  /** TAILQ_NEXT */
  function Next(elm: Link, ghost head: Link, ghost ns: seq<Link>, ghost k: nat): (r: Link?)
    requires Tailq(head, ns) && k < |ns| && ns[k] == elm
    reads head, ns
    ensures r == if k + 1 < |ns| then ns[k + 1] else null
  {
    Places(head, ns, k + 1);
    elm.fwd
  }

  lemma LastHops(head: Link, ns: seq<Link>)
    requires Tailq(head, ns)
    ensures head.back in [head] + ns && head.back.back != null && head.back.back in [head] + ns
    ensures head.back.back.fwd == if ns == [] then null else ns[|ns| - 1]
  {
    Places(head, ns, |ns|);
    if ns != [] {
      Places(head, ns, |ns| - 1);
    }
  }

  lemma PrevHops(head: Link, ns: seq<Link>, k: nat)
    requires Tailq(head, ns) && k < |ns|
    ensures ns[k].back != null && ns[k].back in [head] + ns
    ensures ns[k].back.back != null && ns[k].back.back in [head] + ns
    ensures ns[k].back.back.fwd == if k == 0 then null else ns[k - 1]
  {
    Places(head, ns, k);
    if k == 0 {
      Places(head, ns, |ns|);
    } else {
      Places(head, ns, k - 1);
    }
  }

  /** TAILQ_LAST: the head's last link, read as a head, whose own last link points at the last element. */
  function Last(head: Link, ghost ns: seq<Link>): (r: Link?)
    requires Tailq(head, ns)
    reads head, ns
    ensures r == if ns == [] then null else ns[|ns| - 1]
  {
    LastHops(head, ns);
    head.back.back.fwd
  }

  /** TAILQ_PREV: the same two hops from an element. */
  function Prev(elm: Link, ghost head: Link, ghost ns: seq<Link>, ghost k: nat): (r: Link?)
    requires Tailq(head, ns) && k < |ns| && ns[k] == elm
    reads head, ns
    ensures r == if k == 0 then null else ns[k - 1]
  {
    PrevHops(head, ns, k);
    elm.back.back.fwd
  }

  // ----- traversal -----

  /** TAILQ_FOREACH */
  method Foreach(head: Link, ghost ns: seq<Link>) returns (visited: seq<Link>)
    requires Tailq(head, ns)
    ensures visited == ns
  {
    visited := [];
    Places(head, ns, 0);
    var v := head.fwd;
    while v != null
      invariant |visited| <= |ns| && visited == ns[..|visited|]
      invariant v == if |visited| < |ns| then ns[|visited|] else null
      decreases |ns| - |visited|
    {
      visited := visited + [v];
      Places(head, ns, |visited|);
      v := v.fwd;
    }
  }

  /** TAILQ_FOREACH_REVERSE */
  method ForeachReverse(head: Link, ghost ns: seq<Link>) returns (visited: seq<Link>)
    requires Tailq(head, ns)
    ensures visited == Reverse(ns)
  {
    visited := [];
    LastHops(head, ns);
    var v := head.back.back.fwd;
    ghost var k := |ns|;
    assert ns[k..] == [];
    while v != null
      invariant 0 <= k <= |ns| && visited == Reverse(ns[k..])
      invariant v == if k == 0 then null else ns[k - 1]
      decreases k
    {
      visited := visited + [v];
      PrevHops(head, ns, k - 1);
      v := v.back.back.fwd;
      assert ns[k - 1..][1..] == ns[k..];
      k := k - 1;
    }
  }

  /** One turn of a safe traversal: save the successor, then let the body remove the element. */
  method VisitSafe(head: Link, v: Link, drop: set<Link>, ghost kept: seq<Link>, ghost rest: seq<Link>, ghost ns: seq<Link>)
    returns (next: Link?)
    requires Tailq(head, kept + ([v] + rest))
    requires forall i :: 0 <= i < |kept + ([v] + rest)| ==> (kept + ([v] + rest))[i] in ns
    modifies head, ns
    ensures Tailq(head, (if v in drop then kept else kept + [v]) + rest)
    ensures next == if rest == [] then null else rest[0]
  {
    ghost var all := kept + ([v] + rest);
    Places(head, all, |kept| + 1);
    next := v.fwd;
    if v in drop {
      RemoveElm(head, v, all, |kept|);
      assert Remove(all, |kept|) == kept + rest;
    } else {
      assert kept + [v] + rest == all;
    }
  }

  /** What is kept of the visited elements and what is still to be visited are elements. */
  lemma KeptWithin(visited: seq<Link>, rest: seq<Link>, drop: set<Link>)
    ensures forall i :: 0 <= i < |Keep(visited, drop) + rest| ==> (Keep(visited, drop) + rest)[i] in visited + rest
  {
    var kept := Keep(visited, drop);
    KeepSubset(visited, drop);
    forall i | 0 <= i < |kept + rest|
      ensures (kept + rest)[i] in visited + rest
    {
      if i < |kept| {
        assert kept[i] in visited;
      } else {
        assert rest[i - |kept|] in rest;
      }
    }
  }

  /**
   TAILQ_FOREACH_SAFE with a body that removes the visited element when it is to be
   dropped: every element is visited once, in order, and exactly the kept ones remain.
   */
  method ForeachSafeRemoving(head: Link, drop: set<Link>, ghost ns: seq<Link>) returns (visited: seq<Link>)
    requires Tailq(head, ns)
    modifies head, ns
    ensures visited == ns
    ensures Tailq(head, Keep(ns, drop))
  {
    visited := [];
    Places(head, ns, 0);
    var v := head.fwd;
    ghost var rest := ns;
    assert [] + ns == ns;
    while v != null
      invariant visited + rest == ns
      invariant Tailq(head, Keep(visited, drop) + rest)
      invariant v == if rest == [] then null else rest[0]
      decreases |rest|
    {
      ghost var kept, tail := Keep(visited, drop), rest[1..];
      assert rest == [v] + tail;
      KeptWithin(visited, rest, drop);
      KeepAppend(visited, v, drop);
      var next := VisitSafe(head, v, drop, kept, tail, ns);
      assert Keep(visited + [v], drop) == if v in drop then kept else kept + [v];
      assert visited + [v] + tail == ns;
      visited, rest, v := visited + [v], tail, next;
    }
    assert Keep(visited, drop) + [] == Keep(visited, drop);
  }
}
