/** STAILQ: forward links only; the head's back is the link whose fwd field holds the terminating null. */
module SinglyTailQueue {
  import opened Links

  /** A head followed by its elements, in one direction. */
  ghost predicate Strung(s: seq<Link>)
    reads s
  {
    && s != []
    && Distinct(s)
    && (forall i {:trigger s[i].fwd} :: 0 <= i < |s| - 1 ==> s[i].fwd == s[i + 1])
    && s[|s| - 1].fwd == null
    && s[0].back == s[|s| - 1]
  }

  ghost predicate Stailq(head: Link, ns: seq<Link>)
    reads head, ns
  {
    Strung([head] + ns)
  }

  lemma Stations(head: Link, ns: seq<Link>, k: nat)
    requires Stailq(head, ns) && k <= |ns|
    ensures var s := [head] + ns;
            && s[0] == head && s[k] == (if k == 0 then head else ns[k - 1])
            && s[|ns|] == head.back
            && s[k].fwd == (if k < |ns| then ns[k] else null)
            && (k < |ns| ==> s[k + 1] == ns[k] && ns[k] != head)
  {
  }

  /** STAILQ_INIT */
  method InitString(head: Link)
    modifies head
    ensures Stailq(head, [])
  {
    head.fwd := null;
    head.back := head;
  }

  /** STAILQ_INSERT_HEAD */
  method InsertFront(head: Link, elm: Link, ghost ns: seq<Link>)
    requires Stailq(head, ns) && Apart(head, ns, elm)
    modifies head, elm
    ensures Stailq(head, [elm] + ns)
  {
    Stations(head, ns, 0);
    ghost var s := [head] + ns;
    elm.fwd := head.fwd;
    if elm.fwd == null {
      head.back := elm;
    }
    head.fwd := elm;
    assert Strung(Insert(s, 1, elm));
    assert Insert(s, 1, elm) == [head] + ([elm] + ns);
  }

  /** STAILQ_INSERT_AFTER */
  method InsertBehind(head: Link, listelm: Link, elm: Link, ghost ns: seq<Link>, ghost k: nat)
    requires Stailq(head, ns) && Apart(head, ns, elm) && k < |ns| && ns[k] == listelm
    modifies head, listelm, elm
    ensures Stailq(head, Insert(ns, k + 1, elm))
  {
    Stations(head, ns, k);
    Stations(head, ns, k + 1);
    ghost var s := [head] + ns;
    elm.fwd := listelm.fwd;
    if elm.fwd == null {
      head.back := elm;
    }
    listelm.fwd := elm;
    assert Strung(Insert(s, k + 2, elm));
    assert Insert(s, k + 2, elm) == [head] + Insert(ns, k + 1, elm);
  }

  /** STAILQ_INSERT_TAIL */
  method InsertEnd(head: Link, elm: Link, ghost ns: seq<Link>)
    requires Stailq(head, ns) && Apart(head, ns, elm)
    modifies head, ns, elm
    ensures Stailq(head, ns + [elm])
  {
    Stations(head, ns, |ns|);
    ghost var s := [head] + ns;
    elm.fwd := null;
    head.back.fwd := elm;
    head.back := elm;
    assert Strung(s + [elm]);
    assert s + [elm] == [head] + (ns + [elm]);
  }

  /** STAILQ_CONCAT */
  method Splice(head1: Link, head2: Link, ghost ns1: seq<Link>, ghost ns2: seq<Link>)
    requires Stailq(head1, ns1) && Stailq(head2, ns2) && Disjoint(head1, ns1, head2, ns2)
    modifies head1, ns1, head2
    ensures Stailq(head1, ns1 + ns2) && Stailq(head2, [])
  {
    Stations(head1, ns1, |ns1|);
    Stations(head2, ns2, 0);
    Stations(head2, ns2, |ns2|);
    ghost var s1, s2 := [head1] + ns1, [head2] + ns2;
    assert s1[|ns1|] == head1 || s1[|ns1|] in ns1;
    if head2.fwd != null {
      head1.back.fwd := head2.fwd;
      head1.back := head2.back;
      InitString(head2);
      JoinedDistinct(head1, ns1, head2, ns2);
      ghost var s := s1 + ns2;
      forall i {:trigger s[i].fwd} | 0 <= i < |s| - 1
        ensures s[i].fwd == s[i + 1]
      {
        if i >= |s1| {
          assert s[i] == s2[i - |s1| + 1] && s[i + 1] == s2[i - |s1| + 2];
        } else {
          assert s[i] == s1[i];
        }
      }
      assert s[|s| - 1] == s2[|ns2|] && s2[|ns2|] in ns2 && s1[|ns1|] !in ns2;
      assert Strung(s);
      assert s == [head1] + (ns1 + ns2);
    } else {
      assert ns1 + ns2 == ns1;
    }
  }

  /** STAILQ_REMOVE_HEAD */
  method RemoveFront(head: Link, ghost ns: seq<Link>)
    requires Stailq(head, ns) && ns != []
    modifies head
    ensures Stailq(head, ns[1..])
  {
    RemoveFrontUntil(head, head.fwd, ns, 0);
  }

  /** STAILQ_REMOVE_HEAD_UNTIL */
  method RemoveFrontUntil(head: Link, elm: Link, ghost ns: seq<Link>, ghost k: nat)
    requires Stailq(head, ns) && k < |ns| && ns[k] == elm
    modifies head
    ensures Stailq(head, ns[k + 1..])
  {
    Stations(head, ns, k);
    Stations(head, ns, k + 1);
    ghost var s := [head] + ns;
    head.fwd := elm.fwd;
    if head.fwd == null {
      head.back := head;
    }
    ghost var t := [head] + ns[k + 1..];
    assert forall i :: 1 <= i < |t| ==> t[i] == s[i + k + 1];
    assert Strung(t);
  }

  /** STAILQ_REMOVE_AFTER, which asks for an element that is not the last. */
  method RemoveBehind(head: Link, elm: Link, ghost ns: seq<Link>, ghost k: nat)
    requires Stailq(head, ns) && k + 1 < |ns| && ns[k] == elm
    modifies head, elm
    ensures Stailq(head, Remove(ns, k + 1))
  {
    Stations(head, ns, k + 1);
    Stations(head, ns, k + 2);
    ghost var s := [head] + ns;
    elm.fwd := elm.fwd.fwd;
    if elm.fwd == null {
      head.back := elm;
    }
    assert Strung(Remove(s, k + 2));
    assert Remove(s, k + 2) == [head] + Remove(ns, k + 1);
  }

  /** STAILQ_REMOVE: searches for the element's predecessor; the search ends because elm is an element. */
  method RemoveMember(head: Link, elm: Link, ghost ns: seq<Link>, ghost k: nat)
    requires Stailq(head, ns) && k < |ns| && ns[k] == elm
    modifies head, ns
    ensures Stailq(head, Remove(ns, k))
  {
    Stations(head, ns, 0);
    Stations(head, ns, k);
    if head.fwd == elm {
      OnlyAt(head, ns, 0, k);
      RemoveFront(head, ns);
      assert ns[1..] == Remove(ns, 0);
    } else {
      var curelm := head.fwd;
      ghost var j := 0;
      Stations(head, ns, 1);
      while curelm.fwd != elm
        invariant Stailq(head, ns) && 0 <= j < k && curelm == ns[j]
        invariant curelm.fwd == ns[j + 1]
        decreases k - j
      {
        OnlyAt(head, ns, j + 1, k);
        curelm := curelm.fwd;
        j := j + 1;
        Stations(head, ns, j + 1);
      }
      OnlyAt(head, ns, j + 1, k);
      RemoveBehind(head, curelm, ns, j);
    }
  }

  /** An element has one place. */
  lemma OnlyAt(head: Link, ns: seq<Link>, i: nat, k: nat)
    requires Stailq(head, ns) && i < |ns| && k < |ns|
    ensures ns[i] == ns[k] <==> i == k
  {
    var s := [head] + ns;
    assert s[i + 1] == ns[i] && s[k + 1] == ns[k];
  }

  /** STAILQ_SWAP; a queue may be swapped with itself. */
  method Exchange(head1: Link, head2: Link, ghost ns1: seq<Link>, ghost ns2: seq<Link>)
    requires Stailq(head1, ns1) && Stailq(head2, ns2)
    requires (head1 == head2 && ns1 == ns2) || Disjoint(head1, ns1, head2, ns2)
    modifies head1, head2
    ensures Stailq(head1, ns2) && Stailq(head2, ns1)
  {
    Stations(head1, ns1, 0);
    Stations(head2, ns2, 0);
    ghost var s1, s2 := [head1] + ns1, [head2] + ns2;
    var swapFirst, swapLast := head1.fwd, head1.back;
    head1.fwd := head2.fwd;
    head1.back := head2.back;
    head2.fwd := swapFirst;
    head2.back := swapLast;
    if head1.fwd == null {
      head1.back := head1;
    }
    if head2.fwd == null {
      head2.back := head2;
    }
    assert Strung(s2[0 := head1]);
    assert Strung(s1[0 := head2]);
    assert s2[0 := head1] == [head1] + ns2;
    assert s1[0 := head2] == [head2] + ns1;
  }

  /** STAILQ_FOREACH */
  method ForeachString(head: Link, ghost ns: seq<Link>) returns (visited: seq<Link>)
    requires Stailq(head, ns)
    ensures visited == ns
  {
    visited := [];
    Stations(head, ns, 0);
    var v := head.fwd;
    while v != null
      invariant |visited| <= |ns| && visited == ns[..|visited|]
      invariant v == if |visited| < |ns| then ns[|visited|] else null
      decreases |ns| - |visited|
    {
      visited := visited + [v];
      Stations(head, ns, |visited|);
      v := v.fwd;
    }
  }
}
