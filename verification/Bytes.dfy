/** Bytes, packets and the size arithmetic shared by the driver and server models. */
module Bytes {

  type Byte = x: int | 0 <= x < 256

  type Packet = seq<Byte>

  const NEWLINE: Byte := 10

  // size_t is a 64-bit unsigned integer.
  const SIZE_MOD: nat := 0x1_0000_0000_0000_0000
  const SIZE_MAX: nat := SIZE_MOD - 1

  datatype Option<+T> = None | Some(value: T)

  function Min(a: int, b: int): int {
    if a <= b then a else b
  }

  /** The bytes of all packets, end to end. */
  function Flatten(ps: seq<Packet>): seq<Byte> {
    if ps == [] then [] else ps[0] + Flatten(ps[1..])
  }

  function Sum(ns: seq<nat>): nat {
    if ns == [] then 0 else ns[0] + Sum(ns[1..])
  }

  function Lengths(ps: seq<Packet>): seq<nat> {
    seq(|ps|, i requires 0 <= i < |ps| => |ps[i]|)
  }

  lemma {:induction false} FlattenAppend(a: seq<Packet>, b: seq<Packet>)
    ensures Flatten(a + b) == Flatten(a) + Flatten(b)
  {
    if a == [] {
      assert a + b == b;
    } else {
      assert (a + b)[0] == a[0] && (a + b)[1..] == a[1..] + b;
      FlattenAppend(a[1..], b);
    }
  }

  lemma {:induction false} SumAppend(a: seq<nat>, b: seq<nat>)
    ensures Sum(a + b) == Sum(a) + Sum(b)
  {
    if a == [] {
      assert a + b == b;
    } else {
      assert (a + b)[0] == a[0] && (a + b)[1..] == a[1..] + b;
      SumAppend(a[1..], b);
    }
  }

  lemma {:induction false} SumUpdate(ns: seq<nat>, t: nat, v: nat)
    requires t < |ns|
    ensures Sum(ns[t := v]) + ns[t] == Sum(ns) + v
  {
    if t == 0 {
      assert ns[t := v][1..] == ns[1..];
    } else {
      assert ns[t := v][1..] == ns[1..][t - 1 := v];
      SumUpdate(ns[1..], t - 1, v);
    }
  }

  lemma {:induction false} FlattenLength(ps: seq<Packet>)
    ensures |Flatten(ps)| == Sum(Lengths(ps))
  {
    if ps != [] {
      assert Lengths(ps)[1..] == Lengths(ps[1..]);
      FlattenLength(ps[1..]);
    }
  }

  lemma Reassociate(a: seq<Byte>, b: seq<Byte>, c: seq<Byte>)
    ensures (a + b) + c == a + (b + c)
  {
  }

  lemma FlattenOne(p: Packet)
    ensures Flatten([p]) == p
  {
    assert Flatten([p]) == p + Flatten([]);
  }

  /** The number of blocks of at most c items that hold n items. */
  function CeilDiv(n: nat, c: nat): nat
    requires c > 0
  {
    (n + c - 1) / c
  }

  lemma MulMonotone(a: nat, b: nat, c: nat)
    requires a <= b
    ensures a * c <= b * c
  {
  }

  lemma QuotientIs(n: nat, c: nat, q: nat)
    requires c > 0 && q * c <= n < (q + 1) * c
    ensures n / c == q
  {
    var d := n / c;
    assert n == d * c + n % c;
    if d < q {
      MulMonotone(d + 1, q, c);
    } else if d > q {
      MulMonotone(q + 1, d, c);
    }
  }

  lemma CeilDivSmall(n: nat, c: nat)
    requires 0 < n <= c
    ensures CeilDiv(n, c) == 1
  {
    QuotientIs(n + c - 1, c, 1);
  }

  lemma CeilDivStep(n: nat, c: nat)
    requires 0 < c < n
    ensures CeilDiv(n, c) == 1 + CeilDiv(n - c, c)
  {
    var q := (n - 1) / c;
    assert n - 1 == q * c + (n - 1) % c;
    assert (q + 1) * c == q * c + c && (q + 2) * c == q * c + c + c;
    QuotientIs(n + c - 1, c, q + 1);
  }
}
