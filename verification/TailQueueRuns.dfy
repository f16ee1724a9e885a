/** Any number of tail queues at once, under any sequence of operations. */
module TailQueueRuns {
  import opened Links
  import opened TailQueue

  /** The links of all the queues. */
  ghost function Nodes(lists: seq<seq<Link>>): set<Link> {
    set i, k | 0 <= i < |lists| && 0 <= k < |lists[i]| :: lists[i][k]
  }

  ghost predicate AllDisjoint(heads: seq<Link>, lists: seq<seq<Link>>)
    requires |heads| == |lists|
  {
    forall i, j :: 0 <= i < |heads| && 0 <= j < |heads| && i != j ==>
      Disjoint(heads[i], lists[i], heads[j], lists[j])
  }

  /** Every head heads the queue of its list, and no link is in two queues. */
  ghost predicate Queues(heads: seq<Link>, lists: seq<seq<Link>>)
    reads heads, Nodes(lists)
  {
    && |heads| == |lists|
    && (forall i :: 0 <= i < |heads| ==>
          assert forall k :: 0 <= k < |lists[i]| ==> lists[i][k] in Nodes(lists);
          Tailq(heads[i], lists[i]))
    && AllDisjoint(heads, lists)
  }

  /** elm is in no queue and is no head. */
  ghost predicate Loose(heads: seq<Link>, lists: seq<seq<Link>>, elm: Link) {
    elm !in heads && forall i :: 0 <= i < |lists| ==> elm !in lists[i]
  }

  datatype Op =
    | OpInsertHead(h: nat, elm: Link)
    | OpInsertTail(h: nat, elm: Link)
    | OpInsertBefore(h: nat, at: Link, elm: Link)
    | OpInsertAfter(h: nat, at: Link, elm: Link)
    | OpRemove(h: nat, at: Link)
    | OpReplace(h: nat, at: Link, elm: Link)
    | OpConcat(h: nat, h2: nat)
    | OpSwap(h: nat, h2: nat)

  /** What the macros ask of their callers: real queues, members to act at, loose links to add. */
  ghost predicate Allowed(heads: seq<Link>, lists: seq<seq<Link>>, op: Op) {
    && |heads| == |lists|
    && op.h < |heads|
    && match op
       case OpInsertHead(h, elm) => Loose(heads, lists, elm)
       case OpInsertTail(h, elm) => Loose(heads, lists, elm)
       case OpInsertBefore(h, at, elm) => at in lists[h] && Loose(heads, lists, elm)
       case OpInsertAfter(h, at, elm) => at in lists[h] && Loose(heads, lists, elm)
       case OpRemove(h, at) => at in lists[h]
       case OpReplace(h, at, elm) => at in lists[h] && Loose(heads, lists, elm)
       case OpConcat(h, h2) => h2 < |heads| && h2 != h
       case OpSwap(h, h2) => h2 < |heads| && h2 != h
  }

  /** Nothing but membership and looseness is asked: every operation may be used wherever these hold. */
  lemma AllowedWhereAsked(heads: seq<Link>, lists: seq<seq<Link>>, h: nat, h2: nat, at: Link, elm: Link)
    requires |heads| == |lists| && h < |heads| && h2 < |heads| && h != h2
    requires at in lists[h] && elm !in heads && forall i :: 0 <= i < |lists| ==> elm !in lists[i]
    ensures Allowed(heads, lists, OpInsertHead(h, elm)) && Allowed(heads, lists, OpInsertTail(h, elm))
    ensures Allowed(heads, lists, OpInsertBefore(h, at, elm)) && Allowed(heads, lists, OpInsertAfter(h, at, elm))
    ensures Allowed(heads, lists, OpRemove(h, at)) && Allowed(heads, lists, OpReplace(h, at, elm))
    ensures Allowed(heads, lists, OpConcat(h, h2)) && Allowed(heads, lists, OpSwap(h, h2))
  {
  }

  /** The operation on the abstract lists. */
  ghost function Apply(heads: seq<Link>, lists: seq<seq<Link>>, op: Op): (r: seq<seq<Link>>)
    requires Allowed(heads, lists, op)
    ensures |r| == |lists|
  {
    var ns := lists[op.h];
    match op
    case OpInsertHead(h, elm) => lists[h := [elm] + ns]
    case OpInsertTail(h, elm) => lists[h := ns + [elm]]
    case OpInsertBefore(h, at, elm) => lists[h := Insert(ns, IndexOf(ns, at), elm)]
    case OpInsertAfter(h, at, elm) => lists[h := Insert(ns, IndexOf(ns, at) + 1, elm)]
    case OpRemove(h, at) => lists[h := Remove(ns, IndexOf(ns, at))]
    case OpReplace(h, at, elm) => lists[h := ns[IndexOf(ns, at) := elm]]
    case OpConcat(h, h2) => lists[h := ns + lists[h2]][h2 := []]
    case OpSwap(h, h2) => lists[h := lists[h2]][h2 := ns]
  }

  /**
   What an operation at an element does, wherever it stands: the new element goes right
   before or right after it, or in its place, or it goes; the rest stays in order.
   */
  lemma ApplyAt(heads: seq<Link>, lists: seq<seq<Link>>, op: Op, a: seq<Link>, b: seq<Link>)
    requires Allowed(heads, lists, op) && Distinct(lists[op.h])
    requires op.OpInsertBefore? || op.OpInsertAfter? || op.OpRemove? || op.OpReplace?
    requires lists[op.h] == a + [op.at] + b
    ensures var r := Apply(heads, lists, op);
            && (forall i :: 0 <= i < |lists| && i != op.h ==> r[i] == lists[i])
            && match op
               case OpInsertBefore(h, at, elm) => r[h] == a + [elm, at] + b
               case OpInsertAfter(h, at, elm) => r[h] == a + [at, elm] + b
               case OpReplace(h, at, elm) => r[h] == a + [elm] + b
               case OpRemove(h, at) => r[h] == a + b && at !in r[h]
               case _ => true
  {
    hide Insert, Remove, Distinct;
    IndexInSplit(lists[op.h], a, op.at, b);
    AtSplit(a, op.at, b, if op.OpRemove? then op.at else op.elm);
    GoneFromSplit(a, op.at, b);
  }

  /** What the other operations do: the ends of the lists they make, and that nothing else changes. */
  lemma ApplyToWhole(heads: seq<Link>, lists: seq<seq<Link>>, op: Op)
    requires Allowed(heads, lists, op)
    requires op.OpInsertHead? || op.OpInsertTail? || op.OpConcat? || op.OpSwap?
    ensures var r, old1 := Apply(heads, lists, op), lists[op.h];
            && (forall i :: 0 <= i < |lists| && i != op.h && (op.OpConcat? || op.OpSwap? ==> i != op.h2) ==>
                  r[i] == lists[i])
            && match op
               case OpInsertHead(h, elm) => r[h] != [] && r[h][0] == elm && r[h][1..] == old1
               case OpInsertTail(h, elm) => r[h] != [] && r[h][|r[h]| - 1] == elm && r[h][..|r[h]| - 1] == old1
               case OpConcat(h, h2) =>
                 && |r[h]| == |old1| + |lists[h2]| && r[h][..|old1|] == old1 && r[h][|old1|..] == lists[h2]
                 && r[h2] == []
               case OpSwap(h, h2) => r[h] == lists[h2] && r[h2] == old1
               case _ => true
  {
  }

  /** The loose links an operation brings in. */
  function Added(op: Op): set<Link> {
    if op.OpConcat? || op.OpSwap? || op.OpRemove? then {} else {op.elm}
  }

  ghost predicate Within(ns: seq<Link>, ns': seq<Link>, extra: set<Link>) {
    forall k :: 0 <= k < |ns'| ==> ns'[k] in ns || ns'[k] in extra
  }

  /** One queue changed, with links of its own and loose ones, and the others did not. */
  lemma OneChanged(heads: seq<Link>, lists: seq<seq<Link>>, h: nat, ns: seq<Link>, extra: set<Link>)
    requires |heads| == |lists| && AllDisjoint(heads, lists) && h < |heads|
    requires Within(lists[h], ns, extra) && forall e :: e in extra ==> Loose(heads, lists, e)
    requires forall i :: 0 <= i < |heads| && i != h ==> Tailq(heads[i], lists[i])
    requires Tailq(heads[h], ns)
    ensures Queues(heads, lists[h := ns])
  {
    var lists' := lists[h := ns];
    forall i, j | 0 <= i < |heads| && 0 <= j < |heads| && i != j
      ensures Disjoint(heads[i], lists'[i], heads[j], lists'[j])
    {
      assert Disjoint(heads[i], lists[i], heads[j], lists[j]);
    }
  }

  /** A queue that shares no link with what an operation may touch. */
  ghost predicate Untouched(heads: seq<Link>, lists: seq<seq<Link>>, h: nat, extra: set<Link>)
    requires |heads| == |lists| && h < |heads|
  {
    forall i :: 0 <= i < |heads| && i != h ==>
      && heads[i] != heads[h] && heads[i] !in lists[h] && heads[i] !in extra
      && forall k :: 0 <= k < |lists[i]| ==>
           lists[i][k] != heads[h] && lists[i][k] !in lists[h] && lists[i][k] !in extra
  }

  lemma OthersUntouched(heads: seq<Link>, lists: seq<seq<Link>>, h: nat, extra: set<Link>)
    requires |heads| == |lists| && AllDisjoint(heads, lists) && h < |heads|
    requires forall e :: e in extra ==> Loose(heads, lists, e)
    ensures Untouched(heads, lists, h, extra)
  {
    forall i | 0 <= i < |heads| && i != h
      ensures heads[i] != heads[h] && heads[i] !in lists[h] && heads[i] !in extra
      ensures forall k :: 0 <= k < |lists[i]| ==>
                lists[i][k] != heads[h] && lists[i][k] !in lists[h] && lists[i][k] !in extra
    {
      assert Disjoint(heads[i], lists[i], heads[h], lists[h]);
      forall k | 0 <= k < |lists[i]|
        ensures lists[i][k] != heads[h] && lists[i][k] !in lists[h] && lists[i][k] !in extra
      {
        assert lists[i][k] in lists[i];
      }
    }
  }

  /** One operation on one queue. */
  method PerformOne(heads: seq<Link>, op: Op, ghost lists: seq<seq<Link>>)
    requires Queues(heads, lists) && Allowed(heads, lists, op)
    requires !op.OpConcat? && !op.OpSwap?
    modifies heads[op.h], lists[op.h], Added(op)
    ensures Tailq(heads[op.h], Apply(heads, lists, op)[op.h])
    ensures match op
            case OpInsertHead(h, elm) =>
              heads[h].fwd == elm && elm.back == heads[h] && elm.fwd == old(heads[h].fwd)
            case OpInsertTail(h, elm) =>
              heads[h].back == elm && elm.fwd == null && elm.back == old(heads[h].back)
            case OpInsertBefore(_, at, elm) =>
              elm.fwd == at && at.back == elm && elm.back == old(at.back)
            case OpInsertAfter(_, at, elm) =>
              at.fwd == elm && elm.back == at && elm.fwd == old(at.fwd)
            case OpRemove(h, at) =>
              && at.fwd == old(at.fwd) && at.back == old(at.back) && at.back != null && at.back.fwd == at.fwd
              && if at.fwd != null then at.fwd.back == at.back else heads[h].back == at.back
            case OpReplace(h, at, elm) =>
              && elm.fwd == old(at.fwd) && elm.back == old(at.back) && elm.back != null && elm.back.fwd == elm
              && if elm.fwd != null then elm.fwd.back == elm else heads[h].back == elm
            case _ => true
  {
    var head := heads[op.h];
    ghost var ns := lists[op.h];
    if op.OpInsertHead? {
      InsertHead(head, op.elm, ns);
    } else if op.OpInsertTail? {
      InsertTail(head, op.elm, ns);
    } else if op.OpInsertBefore? {
      InsertBefore(op.at, op.elm, head, ns, IndexOf(ns, op.at));
    } else if op.OpInsertAfter? {
      InsertAfter(head, op.at, op.elm, ns, IndexOf(ns, op.at));
    } else if op.OpRemove? {
      RemoveElm(head, op.at, ns, IndexOf(ns, op.at));
    } else {
      Replace(head, op.at, op.elm, ns, IndexOf(ns, op.at));
    }
  }

  lemma ApplyWithin(heads: seq<Link>, lists: seq<seq<Link>>, op: Op)
    requires Allowed(heads, lists, op) && !op.OpConcat? && !op.OpSwap?
    ensures var ns := Apply(heads, lists, op)[op.h];
            Within(lists[op.h], ns, Added(op)) && Apply(heads, lists, op) == lists[op.h := ns]
    ensures forall e :: e in Added(op) ==> Loose(heads, lists, e)
  {
  }

  method PerformSingle(heads: seq<Link>, op: Op, ghost lists: seq<seq<Link>>)
    requires Queues(heads, lists) && Allowed(heads, lists, op)
    requires !op.OpConcat? && !op.OpSwap?
    modifies heads, Nodes(lists), Added(op)
    ensures Queues(heads, Apply(heads, lists, op))
    ensures match op
            case OpInsertHead(h, elm) =>
              heads[h].fwd == elm && elm.back == heads[h] && elm.fwd == old(heads[h].fwd)
            case OpInsertTail(h, elm) =>
              heads[h].back == elm && elm.fwd == null && elm.back == old(heads[h].back)
            case OpInsertBefore(_, at, elm) =>
              elm.fwd == at && at.back == elm && elm.back == old(at.back)
            case OpInsertAfter(_, at, elm) =>
              at.fwd == elm && elm.back == at && elm.fwd == old(at.fwd)
            case OpRemove(h, at) =>
              && at.fwd == old(at.fwd) && at.back == old(at.back) && at.back != null && at.back.fwd == at.fwd
              && if at.fwd != null then at.fwd.back == at.back else heads[h].back == at.back
            case OpReplace(h, at, elm) =>
              && elm.fwd == old(at.fwd) && elm.back == old(at.back) && elm.back != null && elm.back.fwd == elm
              && if elm.fwd != null then elm.fwd.back == elm else heads[h].back == elm
            case _ => true
  {
    ghost var ns, extra := Apply(heads, lists, op)[op.h], Added(op);
    ApplyWithin(heads, lists, op);
    OthersUntouched(heads, lists, op.h, extra);
    PerformOne(heads, op, lists);
    OneChanged(heads, lists, op.h, ns, extra);
  }

  /** A queue apart from two others stays apart from what is made of their links. */
  lemma ApartFromBoth(head: Link, ns: seq<Link>, a: Link, la: seq<Link>, b: Link, lb: seq<Link>, ms: seq<Link>)
    requires Disjoint(head, ns, a, la) && Disjoint(head, ns, b, lb) && Within(la + lb, ms, {})
    ensures Disjoint(head, ns, a, ms) && Disjoint(head, ns, b, ms)
    ensures Disjoint(a, ms, head, ns) && Disjoint(b, ms, head, ns)
  {
    forall n | n in ms
      ensures n in la || n in lb
    {
      assert n in la + lb;
    }
  }

  /** Two queues changed, sharing out their links anew, and the others did not. */
  lemma TwoChanged(heads: seq<Link>, lists: seq<seq<Link>>, lists': seq<seq<Link>>, h: nat, h2: nat)
    requires |heads| == |lists| == |lists'| && AllDisjoint(heads, lists) && h < |heads| && h2 < |heads| && h != h2
    requires forall i :: 0 <= i < |heads| && i != h && i != h2 ==> lists'[i] == lists[i]
    requires Within(lists[h] + lists[h2], lists'[h], {}) && Within(lists[h] + lists[h2], lists'[h2], {})
    requires Disjoint(heads[h], lists'[h], heads[h2], lists'[h2])
    requires forall i :: 0 <= i < |heads| ==> Tailq(heads[i], lists'[i])
    ensures Queues(heads, lists')
  {
    forall i, j | 0 <= i < |heads| && 0 <= j < |heads| && i != j
      ensures Disjoint(heads[i], lists'[i], heads[j], lists'[j])
    {
      var outer := if i == h || i == h2 then j else i;
      var inner := if i == h || i == h2 then i else j;
      if outer != h && outer != h2 {
        if inner == h || inner == h2 {
          ApartFromBoth(heads[outer], lists[outer], heads[h], lists[h], heads[h2], lists[h2], lists'[inner]);
        }
      }
    }
  }

  lemma ApplyTwo(heads: seq<Link>, lists: seq<seq<Link>>, op: Op)
    requires Allowed(heads, lists, op) && (op.OpConcat? || op.OpSwap?) && AllDisjoint(heads, lists)
    requires heads[op.h] !in lists[op.h] && heads[op.h2] !in lists[op.h2]
    ensures var lists' := Apply(heads, lists, op);
            var all := lists[op.h] + lists[op.h2];
            && Within(all, lists'[op.h], {}) && Within(all, lists'[op.h2], {})
            && Disjoint(heads[op.h], lists'[op.h], heads[op.h2], lists'[op.h2])
            && forall i :: 0 <= i < |heads| && i != op.h && i != op.h2 ==> lists'[i] == lists[i]
  {
    assert Disjoint(heads[op.h], lists[op.h], heads[op.h2], lists[op.h2]);
  }

  method PerformDouble(heads: seq<Link>, op: Op, ghost lists: seq<seq<Link>>)
    requires Queues(heads, lists) && Allowed(heads, lists, op) && (op.OpConcat? || op.OpSwap?)
    modifies heads, Nodes(lists)
    ensures Queues(heads, Apply(heads, lists, op))
    ensures match op
            case OpConcat(h, h2) =>
              && heads[h].fwd == (if old(heads[h].fwd) != null then old(heads[h].fwd) else old(heads[h2].fwd))
              && heads[h].back == (if old(heads[h2].fwd) != null then old(heads[h2].back) else old(heads[h].back))
              && old(heads[h].back) != null && old(heads[h].back).fwd == old(heads[h2].fwd)
              && heads[h2].fwd == null && heads[h2].back == heads[h2]
            case OpSwap(h, h2) =>
              && heads[h].fwd == old(heads[h2].fwd) && heads[h2].fwd == old(heads[h].fwd)
              && heads[h].back == (if old(heads[h2].fwd) != null then old(heads[h2].back) else heads[h])
              && heads[h2].back == (if old(heads[h].fwd) != null then old(heads[h].back) else heads[h2])
            case _ => true
  {
    ghost var lists' := Apply(heads, lists, op);
    assert Disjoint(heads[op.h], lists[op.h], heads[op.h2], lists[op.h2]);
    Places(heads[op.h], lists[op.h], 0);
    Places(heads[op.h2], lists[op.h2], 0);
    HeadApart(heads[op.h], lists[op.h]);
    HeadApart(heads[op.h2], lists[op.h2]);
    ApplyTwo(heads, lists, op);
    OthersUntouched(heads, lists, op.h, {});
    OthersUntouched(heads, lists, op.h2, {});
    if op.OpConcat? {
      Concat(heads[op.h], heads[op.h2], lists[op.h], lists[op.h2]);
    } else {
      Swap(heads[op.h], heads[op.h2], lists[op.h], lists[op.h2]);
    }
    TwoChanged(heads, lists, lists', op.h, op.h2);
  }

  lemma HeadApart(head: Link, ns: seq<Link>)
    requires Tailq(head, ns)
    ensures head !in ns
  {
    forall k | 0 <= k < |ns|
      ensures ns[k] != head
    {
      Places(head, ns, k);
    }
  }

  /** One operation, among all the queues. */
  method Perform(heads: seq<Link>, op: Op, ghost lists: seq<seq<Link>>)
    requires Queues(heads, lists) && Allowed(heads, lists, op)
    modifies heads, Nodes(lists), Added(op)
    ensures Queues(heads, Apply(heads, lists, op))
    ensures match op
            case OpInsertHead(h, elm) =>
              heads[h].fwd == elm && elm.back == heads[h] && elm.fwd == old(heads[h].fwd)
            case OpInsertTail(h, elm) =>
              heads[h].back == elm && elm.fwd == null && elm.back == old(heads[h].back)
            case OpInsertBefore(_, at, elm) =>
              elm.fwd == at && at.back == elm && elm.back == old(at.back)
            case OpInsertAfter(_, at, elm) =>
              at.fwd == elm && elm.back == at && elm.fwd == old(at.fwd)
            case OpRemove(h, at) =>
              && at.fwd == old(at.fwd) && at.back == old(at.back) && at.back != null && at.back.fwd == at.fwd
              && if at.fwd != null then at.fwd.back == at.back else heads[h].back == at.back
            case OpReplace(h, at, elm) =>
              && elm.fwd == old(at.fwd) && elm.back == old(at.back) && elm.back != null && elm.back.fwd == elm
              && if elm.fwd != null then elm.fwd.back == elm else heads[h].back == elm
            case OpConcat(h, h2) =>
              && heads[h].fwd == (if old(heads[h].fwd) != null then old(heads[h].fwd) else old(heads[h2].fwd))
              && heads[h].back == (if old(heads[h2].fwd) != null then old(heads[h2].back) else old(heads[h].back))
              && old(heads[h].back) != null && old(heads[h].back).fwd == old(heads[h2].fwd)
              && heads[h2].fwd == null && heads[h2].back == heads[h2]
            case OpSwap(h, h2) =>
              && heads[h].fwd == old(heads[h2].fwd) && heads[h2].fwd == old(heads[h].fwd)
              && heads[h].back == (if old(heads[h2].fwd) != null then old(heads[h2].back) else heads[h])
              && heads[h2].back == (if old(heads[h].fwd) != null then old(heads[h].back) else heads[h2])
  {
    if op.OpConcat? || op.OpSwap? {
      PerformDouble(heads, op, lists);
    } else {
      PerformSingle(heads, op, lists);
    }
  }

  // ----- runs -----

  /** TAILQ_INIT of several heads. */
  method InitAll(heads: seq<Link>)
    requires Distinct(heads)
    modifies heads
    ensures Queues(heads, seq(|heads|, _ => []))
  {
    for n := 0 to |heads|
      invariant forall i :: 0 <= i < n ==> Tailq(heads[i], [])
    {
      Init(heads[n]);
    }
  }

  ghost predicate AllowedRun(heads: seq<Link>, lists: seq<seq<Link>>, ops: seq<Op>)
    decreases |ops|
  {
    ops == [] || (Allowed(heads, lists, ops[0]) && AllowedRun(heads, Apply(heads, lists, ops[0]), ops[1..]))
  }

  ghost function ApplyAll(heads: seq<Link>, lists: seq<seq<Link>>, ops: seq<Op>): seq<seq<Link>>
    requires AllowedRun(heads, lists, ops)
    decreases |ops|
  {
    if ops == [] then lists else ApplyAll(heads, Apply(heads, lists, ops[0]), ops[1..])
  }

  /** A run of one operation is the operation, and a run continued is the runs one after another. */
  lemma {:induction false} ApplyRuns(heads: seq<Link>, lists: seq<seq<Link>>, first: seq<Op>, rest: seq<Op>)
    requires AllowedRun(heads, lists, first)
    ensures |first| == 1 ==>
              Allowed(heads, lists, first[0]) && ApplyAll(heads, lists, first) == Apply(heads, lists, first[0])
    ensures AllowedRun(heads, lists, first + rest) <==> AllowedRun(heads, ApplyAll(heads, lists, first), rest)
    ensures AllowedRun(heads, lists, first + rest) ==>
              ApplyAll(heads, lists, first + rest) == ApplyAll(heads, ApplyAll(heads, lists, first), rest)
    decreases |first|
  {
    if first == [] {
      assert first + rest == rest;
    } else {
      assert (first + rest)[0] == first[0] && (first + rest)[1..] == first[1..] + rest;
      ApplyRuns(heads, Apply(heads, lists, first[0]), first[1..], rest);
    }
  }

  /** An element taken out is in no queue and no head, so it may be put in again. */
  lemma RemovedIsLoose(heads: seq<Link>, lists: seq<seq<Link>>, op: Op)
    requires Queues(heads, lists) && Allowed(heads, lists, op) && op.OpRemove?
    ensures Loose(heads, Apply(heads, lists, op), op.at)
  {
    var ns, k := lists[op.h], IndexOf(lists[op.h], op.at);
    DistinctElements(heads[op.h], ns);
    HeadApart(heads[op.h], ns);
    assert ns == ns[..k] + [op.at] + ns[k + 1..];
    ApplyAt(heads, lists, op, ns[..k], ns[k + 1..]);
    forall i | 0 <= i < |heads|
      ensures heads[i] != op.at && op.at !in Apply(heads, lists, op)[i]
    {
      if i != op.h {
        assert Disjoint(heads[i], lists[i], heads[op.h], lists[op.h]);
        assert forall n :: n in lists[i] ==> n !in lists[op.h];
      }
    }
  }

  lemma DistinctElements(head: Link, ns: seq<Link>)
    requires Tailq(head, ns)
    ensures Distinct(ns)
  {
    forall i, j | 0 <= i < j < |ns|
      ensures ns[i] != ns[j]
    {
      assert ([head] + ns)[i + 1] == ns[i] && ([head] + ns)[j + 1] == ns[j];
    }
  }

  lemma ApplyInserts(heads: seq<Link>, lists: seq<seq<Link>>, op: Op)
    requires Allowed(heads, lists, op)
    requires op.OpInsertHead? || op.OpInsertTail? || op.OpInsertBefore? || op.OpInsertAfter?
    ensures op.elm !in lists[op.h]
    ensures Apply(heads, lists, op) == lists[op.h := Insert(lists[op.h], InsertedAt(lists[op.h], op), op.elm)]
  {
    var ns := lists[op.h];
    assert Insert(ns, 0, op.elm) == [op.elm] + ns && Insert(ns, |ns|, op.elm) == ns + [op.elm];
  }

  lemma ApplyRemoves(heads: seq<Link>, lists: seq<seq<Link>>, h: nat, at: Link)
    requires |heads| == |lists| && h < |heads| && at in lists[h]
    ensures Allowed(heads, lists, OpRemove(h, at))
    ensures Apply(heads, lists, OpRemove(h, at)) == lists[h := Remove(lists[h], IndexOf(lists[h], at))]
  {
  }

  /** Removing what was just inserted, wherever it went, restores every queue. */
  lemma RemoveUndoesInsert(heads: seq<Link>, lists: seq<seq<Link>>, op: Op)
    requires Allowed(heads, lists, op)
    requires op.OpInsertHead? || op.OpInsertTail? || op.OpInsertBefore? || op.OpInsertAfter?
    ensures AllowedRun(heads, lists, [op, OpRemove(op.h, op.elm)])
    ensures ApplyAll(heads, lists, [op, OpRemove(op.h, op.elm)]) == lists
  {
    hide Apply, Insert, Remove, ApplyAll, AllowedRun;
    var k := InsertedAt(lists[op.h], op);
    ApplyInserts(heads, lists, op);
    InsertedThere(lists[op.h], k, op.elm);
    ApplyRemoves(heads, Apply(heads, lists, op), op.h, op.elm);
    OneAfterOther(heads, lists, op, OpRemove(op.h, op.elm));
  }

  lemma OneAfterOther(heads: seq<Link>, lists: seq<seq<Link>>, op: Op, op2: Op)
    requires Allowed(heads, lists, op) && Allowed(heads, Apply(heads, lists, op), op2)
    ensures AllowedRun(heads, lists, [op, op2])
    ensures ApplyAll(heads, lists, [op, op2]) == Apply(heads, Apply(heads, lists, op), op2)
  {
    hide Apply, Allowed;
    assert [op, op2][1..] == [op2] && [op2][1..] == [];
    var once := Apply(heads, lists, op);
    assert AllowedRun(heads, once, [op2]) && ApplyAll(heads, once, [op2]) == Apply(heads, once, op2);
  }

  ghost function InsertedAt(ns: seq<Link>, op: Op): (k: nat)
    requires op.OpInsertBefore? || op.OpInsertAfter? ==> op.at in ns
    ensures k <= |ns|
  {
    match op
    case OpInsertTail(_, _) => |ns|
    case OpInsertBefore(_, at, _) => IndexOf(ns, at)
    case OpInsertAfter(_, at, _) => IndexOf(ns, at) + 1
    case _ => 0
  }

  lemma InsertedThere(ns: seq<Link>, k: nat, elm: Link)
    requires k <= |ns| && elm !in ns
    ensures elm in Insert(ns, k, elm) && IndexOf(Insert(ns, k, elm), elm) == k
    ensures Remove(Insert(ns, k, elm), k) == ns
  {
    var t := Insert(ns, k, elm);
    assert t[k] == elm;
    assert forall i :: 0 <= i < k ==> t[i] == ns[i];
    assert forall i :: k < i < |t| ==> t[i] == ns[i - 1];
  }

  function AddedBy(ops: seq<Op>): set<Link> {
    set i, n | 0 <= i < |ops| && n in Added(ops[i]) :: n
  }

  lemma ApplyNodes(heads: seq<Link>, lists: seq<seq<Link>>, op: Op)
    requires Allowed(heads, lists, op)
    ensures Nodes(Apply(heads, lists, op)) <= Nodes(lists) + Added(op)
  {
  }

  /**
   Every run of operations, from any queues: the heap holds exactly the lists that the
   abstract operations make, however the queues exchange and splice their links.
   */
  method PerformAll(heads: seq<Link>, ops: seq<Op>, ghost lists: seq<seq<Link>>)
    requires Queues(heads, lists) && AllowedRun(heads, lists, ops)
    modifies heads, Nodes(lists), AddedBy(ops)
    ensures Queues(heads, ApplyAll(heads, lists, ops))
    decreases |ops|
  {
    if ops != [] {
      ApplyNodes(heads, lists, ops[0]);
      assert forall n :: n in Added(ops[0]) ==> n in AddedBy(ops);
      assert forall n :: n in AddedBy(ops[1..]) ==> n in AddedBy(ops);
      Perform(heads, ops[0], lists);
      PerformAll(heads, ops[1..], Apply(heads, lists, ops[0]));
    }
  }
}
