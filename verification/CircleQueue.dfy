/** CIRCLEQ: both directions close through the head. */
module CircleQueue {
  import opened Links

  /** A head followed by its elements, closed into a ring both ways. */
  ghost predicate Ringed(s: seq<Link>)
    reads s
  {
    && s != []
    && Distinct(s)
    && (forall i {:trigger s[i].fwd} :: 0 <= i < |s| - 1 ==> s[i].fwd == s[i + 1])
    && s[|s| - 1].fwd == s[0]
    && (forall i {:trigger s[i].back} :: 1 <= i < |s| ==> s[i].back == s[i - 1])
    && s[0].back == s[|s| - 1]
  }

  ghost predicate Circleq(head: Link, ns: seq<Link>)
    reads head, ns
  {
    Ringed([head] + ns)
  }

  /** The neighbours of element k; positions before the first and after the last are the head's. */
  lemma Neighbours(head: Link, ns: seq<Link>, k: nat)
    requires Circleq(head, ns)
    ensures head.fwd == (if ns == [] then head else ns[0])
    ensures head.back == (if ns == [] then head else ns[|ns| - 1])
    ensures k < |ns| ==>
              && ns[k] != head
              && ns[k].fwd == (if k + 1 < |ns| then ns[k + 1] else head)
              && ns[k].back == (if k == 0 then head else ns[k - 1])
              && (k + 1 < |ns| ==> ns[k + 1] != head)
              && (k > 0 ==> ns[k - 1] != head)
    ensures var s := [head] + ns;
            && s[0] == head && s[|ns|] == head.back
            && (k < |ns| ==> s[k + 1] == ns[k])
            && (k < |ns| && k > 0 ==> s[k] == ns[k - 1])
            && (k + 1 < |ns| ==> s[k + 2] == ns[k + 1])
  {
    var s := [head] + ns;
    assert s[0] == head;
    if ns != [] {
      assert s[1] == ns[0] && s[|ns|] == ns[|ns| - 1];
    }
    if k < |ns| {
      assert s[k + 1] == ns[k];
      assert k + 1 < |ns| ==> s[k + 2] == ns[k + 1];
      assert k > 0 ==> s[k] == ns[k - 1];
    }
  }

  lemma HeadOutside(head: Link, ns: seq<Link>)
    requires Circleq(head, ns)
    ensures forall k :: 0 <= k < |ns| ==> ns[k] != head
  {
    forall k | 0 <= k < |ns|
      ensures ns[k] != head
    {
      Neighbours(head, ns, k);
    }
  }

  /** Linking a new element in behind position p - 1 leaves a ring with it at p. */
  lemma RingedAfterInsert(s: seq<Link>, p: nat, elm: Link)
    requires Distinct(s) && elm !in s && 1 <= p <= |s|
    requires forall i {:trigger s[i].fwd} :: 0 <= i < |s| - 1 && i != p - 1 ==> s[i].fwd == s[i + 1]
    requires forall i {:trigger s[i].back} :: 1 <= i < |s| && i != p ==> s[i].back == s[i - 1]
    requires s[p - 1].fwd == elm && elm.fwd == (if p < |s| then s[p] else s[0])
    requires elm.back == s[p - 1] && (p < |s| ==> s[p].back == elm && s[|s| - 1].fwd == s[0])
    requires s[0].back == if p < |s| then s[|s| - 1] else elm
    ensures Ringed(Insert(s, p, elm))
  {
    InsertPlaces(s, p, elm);
    hide Insert, Distinct;
    var t := Insert(s, p, elm);
    forall i {:trigger t[i].fwd} | 0 <= i < |t| - 1
      ensures t[i].fwd == t[i + 1]
    {
    }
    forall i {:trigger t[i].back} | 1 <= i < |t|
      ensures t[i].back == t[i - 1]
    {
    }
  }

  /** Linking the neighbours of position p to each other leaves a ring without it. */
  lemma RingedAfterRemove(s: seq<Link>, p: nat)
    requires Distinct(s) && 1 <= p < |s|
    requires forall i {:trigger s[i].fwd} :: 0 <= i < |s| - 1 && i != p - 1 && i != p ==> s[i].fwd == s[i + 1]
    requires forall i {:trigger s[i].back} :: 1 <= i < |s| && i != p && i != p + 1 ==> s[i].back == s[i - 1]
    requires s[p - 1].fwd == (if p + 1 < |s| then s[p + 1] else s[0])
    requires p + 1 < |s| ==> s[p + 1].back == s[p - 1] && s[|s| - 1].fwd == s[0]
    requires s[0].back == if p + 1 < |s| then s[|s| - 1] else s[p - 1]
    ensures Ringed(Remove(s, p))
  {
    RemovePlaces(s, p);
    hide Remove, Distinct;
    var t := Remove(s, p);
    forall i {:trigger t[i].fwd} | 0 <= i < |t| - 1
      ensures t[i].fwd == t[i + 1]
    {
    }
    forall i {:trigger t[i].back} | 1 <= i < |t|
      ensures t[i].back == t[i - 1]
    {
    }
  }

  /** CIRCLEQ_INIT */
  method InitCircle(head: Link)
    modifies head
    ensures Circleq(head, [])
  {
    head.fwd := head;
    head.back := head;
  }

  /** CIRCLEQ_INSERT_HEAD */
  method InsertFirst(head: Link, elm: Link, ghost ns: seq<Link>)
    requires Circleq(head, ns) && Apart(head, ns, elm)
    modifies head, ns, elm
    ensures Circleq(head, [elm] + ns)
    ensures head.fwd == elm && elm.back == head && elm.fwd == old(head.fwd)
  {
    Neighbours(head, ns, 0);
    ghost var s := [head] + ns;
    elm.fwd := head.fwd;
    elm.back := head;
    if head.back == head {
      head.back := elm;
    } else {
      head.fwd.back := elm;
    }
    head.fwd := elm;
    RingedAfterInsert(s, 1, elm);
    assert Insert(s, 1, elm) == [head] + ([elm] + ns);
  }

  /** CIRCLEQ_INSERT_BEFORE */
  method InsertPrior(head: Link, listelm: Link, elm: Link, ghost ns: seq<Link>, ghost k: nat)
    requires Circleq(head, ns) && Apart(head, ns, elm) && k < |ns| && ns[k] == listelm
    modifies head, ns, elm
    ensures Circleq(head, Insert(ns, k, elm))
    ensures elm.fwd == listelm && listelm.back == elm && elm.back == old(listelm.back)
  {
    Neighbours(head, ns, k);
    ghost var s := [head] + ns;
    elm.fwd := listelm;
    elm.back := listelm.back;
    if listelm.back == head {
      head.fwd := elm;
    } else {
      listelm.back.fwd := elm;
    }
    listelm.back := elm;
    RingedAfterInsert(s, k + 1, elm);
    InsertBehindHead(head, ns, k, elm);
  }

  /** CIRCLEQ_INSERT_AFTER */
  method InsertNext(head: Link, listelm: Link, elm: Link, ghost ns: seq<Link>, ghost k: nat)
    requires Circleq(head, ns) && Apart(head, ns, elm) && k < |ns| && ns[k] == listelm
    modifies head, ns, elm
    ensures Circleq(head, Insert(ns, k + 1, elm))
    ensures listelm.fwd == elm && elm.back == listelm && elm.fwd == old(listelm.fwd)
  {
    Neighbours(head, ns, k);
    ghost var s := [head] + ns;
    elm.fwd := listelm.fwd;
    elm.back := listelm;
    if listelm.fwd == head {
      head.back := elm;
    } else {
      listelm.fwd.back := elm;
    }
    listelm.fwd := elm;
    RingedAfterInsert(s, k + 2, elm);
    InsertBehindHead(head, ns, k + 1, elm);
  }

  /** CIRCLEQ_INSERT_TAIL */
  method InsertLast(head: Link, elm: Link, ghost ns: seq<Link>)
    requires Circleq(head, ns) && Apart(head, ns, elm)
    modifies head, ns, elm
    ensures Circleq(head, ns + [elm])
    ensures head.back == elm && elm.fwd == head && elm.back == old(head.back)
  {
    Neighbours(head, ns, |ns|);
    ghost var s := [head] + ns;
    elm.fwd := head;
    elm.back := head.back;
    if head.fwd == head {
      head.fwd := elm;
    } else {
      head.back.fwd := elm;
    }
    head.back := elm;
    RingedAfterInsert(s, |s|, elm);
    assert Insert(s, |s|, elm) == [head] + (ns + [elm]);
  }

  /** CIRCLEQ_REMOVE */
  method RemoveFromCircle(head: Link, elm: Link, ghost ns: seq<Link>, ghost k: nat)
    requires Circleq(head, ns) && k < |ns| && ns[k] == elm
    modifies head, ns
    ensures Circleq(head, Remove(ns, k))
    ensures elm.fwd == old(elm.fwd) && elm.back == old(elm.back)
    ensures elm.fwd != null && elm.back != null && elm.fwd.back == elm.back && elm.back.fwd == elm.fwd
  {
    Neighbours(head, ns, k);
    ghost var s := [head] + ns;
    if elm.fwd == head {
      head.back := elm.back;
    } else {
      elm.fwd.back := elm.back;
    }
    if elm.back == head {
      head.fwd := elm.fwd;
    } else {
      elm.back.fwd := elm.fwd;
    }
    RingedAfterRemove(s, k + 1);
    RemoveBehindHead(head, ns, k);
  }

  /** CIRCLEQ_FOREACH */
  method ForeachCircle(head: Link, ghost ns: seq<Link>) returns (visited: seq<Link>)
    requires Circleq(head, ns)
    ensures visited == ns
  {
    visited := [];
    HeadOutside(head, ns);
    Neighbours(head, ns, 0);
    var v := head.fwd;
    while v != head
      invariant |visited| <= |ns| && visited == ns[..|visited|]
      invariant v == if |visited| < |ns| then ns[|visited|] else head
      decreases |ns| - |visited|
    {
      Neighbours(head, ns, |visited|);
      visited := visited + [v];
      v := v.fwd;
    }
  }

  /** CIRCLEQ_FOREACH_REVERSE */
  method ForeachCircleReverse(head: Link, ghost ns: seq<Link>) returns (visited: seq<Link>)
    requires Circleq(head, ns)
    ensures visited == Reverse(ns)
  {
    visited := [];
    HeadOutside(head, ns);
    Neighbours(head, ns, |ns|);
    var v := head.back;
    ghost var k := |ns|;
    assert ns[k..] == [];
    while v != head
      invariant 0 <= k <= |ns| && visited == Reverse(ns[k..])
      invariant v == if k == 0 then head else ns[k - 1]
      decreases k
    {
      Neighbours(head, ns, k - 1);
      assert ns[k - 1..][1..] == ns[k..];
      visited := visited + [v];
      v := v.back;
      k := k - 1;
    }
  }

  // ----- going round -----

  /** CIRCLEQ_LOOP_NEXT */
  function LoopNext(head: Link, elm: Link, ghost ns: seq<Link>): (r: Link)
    requires Circleq(head, ns) && elm in ns
    reads head, ns
    ensures r in ns
  {
    ghost var k :| 0 <= k < |ns| && ns[k] == elm;
    Neighbours(head, ns, k);
    if elm.fwd == head then head.fwd else elm.fwd
  }

  /** CIRCLEQ_LOOP_PREV */
  function LoopPrev(head: Link, elm: Link, ghost ns: seq<Link>): (r: Link)
    requires Circleq(head, ns) && elm in ns
    reads head, ns
    ensures r in ns
  {
    ghost var k :| 0 <= k < |ns| && ns[k] == elm;
    Neighbours(head, ns, k);
    if elm.back == head then head.back else elm.back
  }

  /** Going on and going back are the two inverse rotations of the elements. */
  lemma LoopSteps(head: Link, ns: seq<Link>, k: nat)
    requires Circleq(head, ns) && k < |ns|
    ensures LoopNext(head, ns[k], ns) == ns[if k + 1 < |ns| then k + 1 else 0]
    ensures LoopPrev(head, ns[k], ns) == ns[if k > 0 then k - 1 else |ns| - 1]
  {
    Neighbours(head, ns, k);
  }

  lemma LoopInverse(head: Link, ns: seq<Link>, elm: Link)
    requires Circleq(head, ns) && elm in ns
    ensures LoopPrev(head, LoopNext(head, elm, ns), ns) == elm
    ensures LoopNext(head, LoopPrev(head, elm, ns), ns) == elm
  {
    var k :| 0 <= k < |ns| && ns[k] == elm;
    LoopSteps(head, ns, k);
    LoopSteps(head, ns, if k + 1 < |ns| then k + 1 else 0);
    LoopSteps(head, ns, if k > 0 then k - 1 else |ns| - 1);
  }

  /** The elements met in n steps from elm. */
  ghost function Walk(head: Link, elm: Link, ns: seq<Link>, n: nat): seq<Link>
    requires Circleq(head, ns) && elm in ns
    reads head, ns
    decreases n
  {
    if n == 0 then [] else [elm] + Walk(head, LoopNext(head, elm, ns), ns, n - 1)
  }

  ghost function After(head: Link, elm: Link, ns: seq<Link>, n: nat): (r: Link)
    requires Circleq(head, ns) && elm in ns
    reads head, ns
    ensures r in ns
    decreases n
  {
    if n == 0 then elm else After(head, LoopNext(head, elm, ns), ns, n - 1)
  }

  lemma SliceCons(ns: seq<Link>, i: nat, j: nat)
    requires i < j <= |ns|
    ensures ns[i..j] == [ns[i]] + ns[i + 1..j]
  {
  }

  lemma WalkCons(head: Link, elm: Link, ns: seq<Link>, n: nat)
    requires Circleq(head, ns) && elm in ns && n > 0
    ensures Walk(head, elm, ns, n) == [elm] + Walk(head, LoopNext(head, elm, ns), ns, n - 1)
    ensures After(head, elm, ns, n) == After(head, LoopNext(head, elm, ns), ns, n - 1)
  {
  }

  lemma {:induction false} WalkOn(head: Link, ns: seq<Link>, k: nat, n: nat)
    requires Circleq(head, ns) && k < |ns| && k + n <= |ns|
    ensures Walk(head, ns[k], ns, n) == ns[k..k + n]
    ensures After(head, ns[k], ns, n) == ns[if k + n < |ns| then k + n else 0]
    decreases n
  {
    if n > 0 {
      LoopSteps(head, ns, k);
      WalkCons(head, ns[k], ns, n);
      SliceCons(ns, k, k + n);
      if k + 1 < |ns| {
        WalkOn(head, ns, k + 1, n - 1);
      } else {
        WalkNone(head, ns[0], ns);
      }
    }
  }

  lemma WalkNone(head: Link, elm: Link, ns: seq<Link>)
    requires Circleq(head, ns) && elm in ns
    ensures Walk(head, elm, ns, 0) == [] && After(head, elm, ns, 0) == elm
  {
  }

  lemma {:induction false} WalkSplit(head: Link, elm: Link, ns: seq<Link>, m: nat, n: nat)
    requires Circleq(head, ns) && elm in ns
    ensures Walk(head, elm, ns, m + n) == Walk(head, elm, ns, m) + Walk(head, After(head, elm, ns, m), ns, n)
    ensures After(head, elm, ns, m + n) == After(head, After(head, elm, ns, m), ns, n)
    decreases m
  {
    if m > 0 {
      WalkSplit(head, LoopNext(head, elm, ns), ns, m - 1, n);
    }
  }

  /** As many steps as there are elements visit each once, in ring order, and come back to the start. */
  lemma FullCircle(head: Link, ns: seq<Link>, k: nat)
    requires Circleq(head, ns) && k < |ns|
    ensures Walk(head, ns[k], ns, |ns|) == ns[k..] + ns[..k]
    ensures After(head, ns[k], ns, |ns|) == ns[k]
  {
    hide Circleq, Walk, After;
    WalkSplit(head, ns[k], ns, |ns| - k, k);
    WalkOn(head, ns, k, |ns| - k);
    WalkOn(head, ns, 0, k);
  }

  // ----- runs -----

  datatype CircleOp =
    | AddFirst(elm: Link) | AddLast(elm: Link)
    | AddBefore(at: Link, elm: Link) | AddAfter(at: Link, elm: Link)
    | Drop(at: Link)

  ghost predicate Permitted(head: Link, ns: seq<Link>, op: CircleOp) {
    && (op.Drop? || Apart(head, ns, op.elm))
    && (op.AddFirst? || op.AddLast? || op.at in ns)
  }

  ghost function Result(head: Link, ns: seq<Link>, op: CircleOp): seq<Link>
    requires Permitted(head, ns, op)
  {
    match op
    case AddFirst(elm) => [elm] + ns
    case AddLast(elm) => ns + [elm]
    case AddBefore(at, elm) => Insert(ns, IndexOf(ns, at), elm)
    case AddAfter(at, elm) => Insert(ns, IndexOf(ns, at) + 1, elm)
    case Drop(at) => Remove(ns, IndexOf(ns, at))
  }

  /**
   What an operation does: the new element goes to one end, or right before or right after
   the given one, or that one goes; the rest stays in order.
   */
  lemma ResultAt(head: Link, ns: seq<Link>, op: CircleOp, a: seq<Link>, b: seq<Link>)
    requires Permitted(head, ns, op) && Distinct(ns)
    requires op.AddBefore? || op.AddAfter? || op.Drop? ==> ns == a + [op.at] + b
    ensures var r := Result(head, ns, op);
            match op
            case AddFirst(elm) => r != [] && r[0] == elm && r[1..] == ns
            case AddLast(elm) => r != [] && r[|r| - 1] == elm && r[..|r| - 1] == ns
            case AddBefore(at, elm) => r == a + [elm, at] + b
            case AddAfter(at, elm) => r == a + [at, elm] + b
            case Drop(at) => r == a + b && at !in r
  {
    hide Insert, Remove, Distinct;
    if op.AddBefore? || op.AddAfter? || op.Drop? {
      IndexInSplit(ns, a, op.at, b);
      AtSplit(a, op.at, b, if op.Drop? then op.at else op.elm);
      GoneFromSplit(a, op.at, b);
    }
  }

  ghost predicate PermittedRun(head: Link, ns: seq<Link>, ops: seq<CircleOp>)
    decreases |ops|
  {
    ops == [] || (Permitted(head, ns, ops[0]) && PermittedRun(head, Result(head, ns, ops[0]), ops[1..]))
  }

  ghost function ResultAll(head: Link, ns: seq<Link>, ops: seq<CircleOp>): seq<Link>
    requires PermittedRun(head, ns, ops)
    decreases |ops|
  {
    if ops == [] then ns else ResultAll(head, Result(head, ns, ops[0]), ops[1..])
  }

  /** A run of one operation is the operation, and a run continued is the runs one after another. */
  lemma {:induction false} ResultRuns(head: Link, ns: seq<Link>, first: seq<CircleOp>, rest: seq<CircleOp>)
    requires PermittedRun(head, ns, first)
    ensures |first| == 1 ==> Permitted(head, ns, first[0]) && ResultAll(head, ns, first) == Result(head, ns, first[0])
    ensures PermittedRun(head, ns, first + rest) <==> PermittedRun(head, ResultAll(head, ns, first), rest)
    ensures PermittedRun(head, ns, first + rest) ==>
              ResultAll(head, ns, first + rest) == ResultAll(head, ResultAll(head, ns, first), rest)
    decreases |first|
  {
    if first == [] {
      assert first + rest == rest;
    } else {
      assert (first + rest)[0] == first[0] && (first + rest)[1..] == first[1..] + rest;
      ResultRuns(head, Result(head, ns, first[0]), first[1..], rest);
    }
  }

  function AddedTo(ops: seq<CircleOp>): set<Link> {
    set i | 0 <= i < |ops| && !ops[i].Drop? :: ops[i].elm
  }

  method PerformOnCircle(head: Link, op: CircleOp, ghost ns: seq<Link>)
    requires Circleq(head, ns) && Permitted(head, ns, op)
    modifies head, ns, if op.Drop? then {} else {op.elm}
    ensures Circleq(head, Result(head, ns, op))
    ensures match op
            case AddFirst(elm) => head.fwd == elm && elm.back == head && elm.fwd == old(head.fwd)
            case AddLast(elm) => head.back == elm && elm.fwd == head && elm.back == old(head.back)
            case AddBefore(at, elm) => elm.fwd == at && at.back == elm && elm.back == old(at.back)
            case AddAfter(at, elm) => at.fwd == elm && elm.back == at && elm.fwd == old(at.fwd)
            case Drop(at) =>
              && at.fwd == old(at.fwd) && at.back == old(at.back)
              && at.fwd != null && at.back != null && at.fwd.back == at.back && at.back.fwd == at.fwd
  {
    match op {
      case AddFirst(elm) => InsertFirst(head, elm, ns);
      case AddLast(elm) => InsertLast(head, elm, ns);
      case AddBefore(at, elm) => InsertPrior(head, at, elm, ns, IndexOf(ns, at));
      case AddAfter(at, elm) => InsertNext(head, at, elm, ns, IndexOf(ns, at));
      case Drop(at) => RemoveFromCircle(head, at, ns, IndexOf(ns, at));
    }
  }

  lemma ResultWithin(head: Link, ns: seq<Link>, op: CircleOp)
    requires Permitted(head, ns, op)
    ensures forall k :: 0 <= k < |Result(head, ns, op)| ==>
              Result(head, ns, op)[k] in ns || (!op.Drop? && Result(head, ns, op)[k] == op.elm)
  {
  }

  /** Every run of inserts and removes keeps the ring and performs the abstract operations. */
  method PerformAllOnCircle(head: Link, ops: seq<CircleOp>, ghost ns: seq<Link>)
    requires Circleq(head, ns) && PermittedRun(head, ns, ops)
    modifies head, ns, AddedTo(ops)
    ensures Circleq(head, ResultAll(head, ns, ops))
    decreases |ops|
  {
    if ops != [] {
      ResultWithin(head, ns, ops[0]);
      assert forall i :: 0 <= i < |ops[1..]| ==> ops[1..][i] == ops[i + 1];
      PerformOnCircle(head, ops[0], ns);
      PerformAllOnCircle(head, ops[1..], Result(head, ns, ops[0]));
    }
  }
}
