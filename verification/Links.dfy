/**
 The link pairs of queue.h. A queue head and an element's entry have the same two
 fields in the same order, which is what lets the macros read one as the other; here
 both are a Link. A pointer to a next field is modelled as the Link that contains it.
 */
module Links {

  class Link {
    var fwd: Link?
    var back: Link?

    constructor ()
      ensures fwd == null && back == null
    {
      fwd, back := null, null;
    }
  }

  ghost predicate Distinct(ns: seq<Link>) {
    forall i, j :: 0 <= i < j < |ns| ==> ns[i] != ns[j]
  }

  /** elm is neither the head nor an element. */
  ghost predicate Apart(head: Link, ns: seq<Link>, elm: Link) {
    elm != head && elm !in ns
  }

  ghost function Insert(ns: seq<Link>, k: nat, elm: Link): (r: seq<Link>)
    requires k <= |ns|
  {
    ns[..k] + [elm] + ns[k..]
  }

  /** Where the links are after an insert, and that they are still distinct. */
  lemma InsertPlaces(s: seq<Link>, k: nat, elm: Link)
    requires k <= |s| && Distinct(s) && elm !in s
    ensures |Insert(s, k, elm)| == |s| + 1
    ensures forall i {:trigger Insert(s, k, elm)[i]} :: 0 <= i <= |s| ==>
              Insert(s, k, elm)[i] == if i < k then s[i] else if i == k then elm else s[i - 1]
    ensures Distinct(Insert(s, k, elm))
  {
    var t := Insert(s, k, elm);
    forall i {:trigger t[i]} | 0 <= i <= |s|
      ensures t[i] == if i < k then s[i] else if i == k then elm else s[i - 1]
    {
    }
    forall i, j | 0 <= i < j < |t|
      ensures t[i] != t[j]
    {
    }
  }

  lemma InsertBehindHead(head: Link, ns: seq<Link>, k: nat, elm: Link)
    requires k <= |ns|
    ensures Insert([head] + ns, k + 1, elm) == [head] + Insert(ns, k, elm)
  {
  }

  ghost function Remove(ns: seq<Link>, k: nat): seq<Link>
    requires k < |ns|
  {
    ns[..k] + ns[k + 1..]
  }

  /** Where the links are after a removal, and that they are still distinct. */
  lemma RemovePlaces(s: seq<Link>, k: nat)
    requires k < |s| && Distinct(s)
    ensures |Remove(s, k)| == |s| - 1
    ensures forall i {:trigger Remove(s, k)[i]} :: 0 <= i < |s| - 1 ==>
              Remove(s, k)[i] == if i < k then s[i] else s[i + 1]
    ensures Distinct(Remove(s, k))
  {
    var t := Remove(s, k);
    forall i {:trigger t[i]} | 0 <= i < |s| - 1
      ensures t[i] == if i < k then s[i] else s[i + 1]
    {
    }
    forall i, j | 0 <= i < j < |t|
      ensures t[i] != t[j]
    {
    }
  }

  lemma RemoveBehindHead(head: Link, ns: seq<Link>, k: nat)
    requires k < |ns|
    ensures Remove([head] + ns, k + 1) == [head] + Remove(ns, k)
  {
  }

  /** Two queues with no link in common. */
  ghost predicate Disjoint(head1: Link, ns1: seq<Link>, head2: Link, ns2: seq<Link>) {
    && head1 != head2 && head1 !in ns2 && head2 !in ns1
    && forall n :: n in ns1 ==> n !in ns2
  }

  lemma JoinedDistinct(head1: Link, ns1: seq<Link>, head2: Link, ns2: seq<Link>)
    requires Distinct([head1] + ns1) && Distinct([head2] + ns2) && Disjoint(head1, ns1, head2, ns2)
    ensures Distinct([head1] + ns1 + ns2)
  {
    var s, s1, s2 := [head1] + ns1 + ns2, [head1] + ns1, [head2] + ns2;
    forall i, j | 0 <= i < j < |s|
      ensures s[i] != s[j]
    {
      if i >= |s1| {
        assert s[i] == s2[i - |s1| + 1] && s[j] == s2[j - |s1| + 1];
      } else if j >= |s1| {
        assert s[i] == s1[i] && s[j] in ns2;
        assert s1[i] == head1 || s1[i] in ns1;
      } else {
        assert s[i] == s1[i] && s[j] == s1[j];
      }
    }
  }

  ghost function IndexOf(ns: seq<Link>, n: Link): (k: nat)
    requires n in ns
    ensures k < |ns| && ns[k] == n
  {
    if ns[0] == n then 0 else 1 + IndexOf(ns[1..], n)
  }

  lemma IndexInSplit(ns: seq<Link>, a: seq<Link>, at: Link, b: seq<Link>)
    requires Distinct(ns) && ns == a + [at] + b
    ensures IndexOf(ns, at) == |a|
  {
    assert ns[|a|] == at;
    var k := IndexOf(ns, at);
    assert !(k < |a|) && !(|a| < k);
  }

  /** Inserting, removing and replacing at an element, in terms of what stands before and behind it. */
  lemma AtSplit(a: seq<Link>, at: Link, b: seq<Link>, elm: Link)
    ensures Insert(a + [at] + b, |a|, elm) == a + [elm, at] + b
    ensures Insert(a + [at] + b, |a| + 1, elm) == a + [at, elm] + b
    ensures Remove(a + [at] + b, |a|) == a + b
    ensures (a + [at] + b)[|a| := elm] == a + [elm] + b
  {
    var ns := a + [at] + b;
    assert ns[..|a|] == a && ns[|a|..] == [at] + b;
    assert ns[..|a| + 1] == a + [at] && ns[|a| + 1..] == b;
    assert [elm] + ([at] + b) == [elm, at] + b;
  }

  lemma GoneFromSplit(a: seq<Link>, at: Link, b: seq<Link>)
    requires Distinct(a + [at] + b)
    ensures at !in a + b
  {
    var ns := a + [at] + b;
    assert ns[|a|] == at;
    assert forall i :: 0 <= i < |a| ==> a[i] == ns[i];
    assert forall i :: 0 <= i < |b| ==> b[i] == ns[|a| + 1 + i];
  }

  function Reverse(ns: seq<Link>): (r: seq<Link>)
    ensures |r| == |ns|
  {
    if ns == [] then [] else Reverse(ns[1..]) + [ns[0]]
  }

  lemma {:induction false} ReverseAt(ns: seq<Link>, k: nat)
    requires k < |ns|
    ensures Reverse(ns)[k] == ns[|ns| - 1 - k]
  {
    if k < |ns| - 1 {
      ReverseAt(ns[1..], k);
    }
  }

  /** The links that are not dropped, in order. */
  ghost function Keep(ns: seq<Link>, drop: set<Link>): seq<Link> {
    if ns == [] then []
    else (if ns[0] in drop then [] else [ns[0]]) + Keep(ns[1..], drop)
  }

  lemma {:induction false} KeepSubset(ns: seq<Link>, drop: set<Link>)
    ensures forall i :: 0 <= i < |Keep(ns, drop)| ==> Keep(ns, drop)[i] in ns && Keep(ns, drop)[i] !in drop
    ensures forall n :: n in ns && n !in drop ==> n in Keep(ns, drop)
  {
    if ns != [] {
      KeepSubset(ns[1..], drop);
      var kept := Keep(ns, drop);
      forall i | 0 <= i < |kept|
        ensures kept[i] in ns && kept[i] !in drop
      {
        if ns[0] in drop {
          assert kept[i] == Keep(ns[1..], drop)[i];
        } else if i > 0 {
          assert kept[i] == Keep(ns[1..], drop)[i - 1];
        }
      }
    }
  }

  lemma {:induction false} KeepAppend(ns: seq<Link>, n: Link, drop: set<Link>)
    ensures Keep(ns + [n], drop) == Keep(ns, drop) + if n in drop then [] else [n]
  {
    if ns != [] {
      assert (ns + [n])[1..] == ns[1..] + [n];
      KeepAppend(ns[1..], n, drop);
    } else {
      assert ([] + [n])[1..] == [];
    }
  }
}
