/**
 What the device promises, without any ring: an ever-growing log of
 newline-terminated packets, a pending tail, and the last ten packets shown
 to readers as one flat byte string.
 */
module PacketLog {
  import opened Bytes

  const CAPACITY: nat := 10

  datatype Log = Log(packets: seq<Packet>, pending: Packet)

  const EMPTY := Log([], [])

  predicate Terminated(bytes: seq<Byte>) {
    bytes != [] && bytes[|bytes| - 1] == NEWLINE
  }

  /** Append accepted bytes to the tail; a tail that ends in a newline becomes a packet. */
  function Accept(lg: Log, bytes: seq<Byte>): Log {
    var tail := lg.pending + bytes;
    if Terminated(tail) then Log(lg.packets + [tail], []) else Log(lg.packets, tail)
  }

  function AcceptAll(lg: Log, chunks: seq<seq<Byte>>): Log
    decreases |chunks|
  {
    if chunks == [] then lg else AcceptAll(Accept(lg, chunks[0]), chunks[1..])
  }

  /** The last byte of the tail is a newline, where the byte before stands in for that of an empty tail. */
  predicate Ends(tail: seq<Byte>, before: Byte) {
    if tail == [] then before == NEWLINE else Terminated(tail)
  }

  /** Accept as the driver does it: a stray newline before an empty tail makes an empty packet. */
  function AcceptAt(lg: Log, bytes: seq<Byte>, before: Byte): Log {
    var tail := lg.pending + bytes;
    if Ends(tail, before) then Log(lg.packets + [tail], []) else Log(lg.packets, tail)
  }

  /** Every packet that is not empty ends in a newline, and the tail does not. */
  predicate WellFormed(lg: Log) {
    && (forall i :: 0 <= i < |lg.packets| ==> lg.packets[i] == [] || Terminated(lg.packets[i]))
    && !Terminated(lg.pending)
  }

  /** Every packet ends in a newline. */
  predicate Proper(lg: Log) {
    forall i :: 0 <= i < |lg.packets| ==> Terminated(lg.packets[i])
  }

  lemma AcceptWellFormed(lg: Log, bytes: seq<Byte>)
    requires WellFormed(lg)
    ensures WellFormed(Accept(lg, bytes))
    ensures Proper(lg) ==> Proper(Accept(lg, bytes))
  {
  }

  /**
   The driver's own test differs exactly when an empty tail lies behind a newline; that
   packet is the only empty one.
   */
  lemma AcceptAtWellFormed(lg: Log, bytes: seq<Byte>, before: Byte)
    requires WellFormed(lg)
    ensures WellFormed(AcceptAt(lg, bytes, before))
    ensures AcceptAt(lg, bytes, before) == Accept(lg, bytes) <==> (lg.pending + bytes == [] ==> before != NEWLINE)
    ensures Proper(AcceptAt(lg, bytes, before)) <==> Proper(lg) && (lg.pending + bytes == [] ==> before != NEWLINE)
  {
    var lg' := AcceptAt(lg, bytes, before);
    assert forall i :: 0 <= i < |lg.packets| ==> lg'.packets[i] == lg.packets[i];
    if lg.pending + bytes == [] && before == NEWLINE {
      assert lg'.packets[|lg.packets|] == [];
    }
  }

  /** All bytes ever accepted. */
  function History(lg: Log): seq<Byte> {
    Flatten(lg.packets) + lg.pending
  }

  lemma AcceptHistory(lg: Log, bytes: seq<Byte>)
    ensures History(Accept(lg, bytes)) == History(lg) + bytes
  {
    var tail := lg.pending + bytes;
    if Terminated(tail) {
      FlattenAppend(lg.packets, [tail]);
      assert Flatten([tail]) == tail + Flatten([]);
    }
    assert Flatten(lg.packets) + tail == History(lg) + bytes;
  }

  lemma AcceptAtHistory(lg: Log, bytes: seq<Byte>, before: Byte)
    ensures History(AcceptAt(lg, bytes, before)) == History(lg) + bytes
  {
    var tail := lg.pending + bytes;
    if Ends(tail, before) {
      FlattenAppend(lg.packets, [tail]);
      assert Flatten([tail]) == tail + Flatten([]);
    }
    assert Flatten(lg.packets) + tail == History(lg) + bytes;
  }

  /** Conservation: no accepted byte is lost, duplicated or reordered, however the writes are cut. */
  lemma {:induction false} AcceptAllHistory(lg: Log, chunks: seq<seq<Byte>>)
    ensures History(AcceptAll(lg, chunks)) == History(lg) + Flatten(chunks)
    decreases |chunks|
  {
    if chunks != [] {
      AcceptHistory(lg, chunks[0]);
      AcceptAllHistory(Accept(lg, chunks[0]), chunks[1..]);
    }
  }

  // ----- the packets readers can still see -----

  function Retained(packets: seq<Packet>): (r: seq<Packet>)
    ensures |r| == Min(|packets|, CAPACITY)
  {
    if |packets| <= CAPACITY then packets else packets[|packets| - CAPACITY..]
  }

  function Content(lg: Log): seq<Byte> {
    Flatten(Retained(lg.packets))
  }

  lemma RetainedAppend(packets: seq<Packet>, p: Packet)
    ensures Retained(packets + [p])
         == (if |packets| >= CAPACITY then Retained(packets)[1..] else Retained(packets)) + [p]
  {
  }

  /** Committing a packet to a full window drops exactly the oldest packet's bytes from the front. */
  lemma EvictionShift(lg: Log, bytes: seq<Byte>)
    requires Terminated(lg.pending + bytes) && |lg.packets| >= CAPACITY
    ensures var s := |Retained(lg.packets)[0]|;
            && s <= |Content(lg)|
            && Content(Accept(lg, bytes)) == Content(lg)[s..] + (lg.pending + bytes)
  {
    var tail := lg.pending + bytes;
    var r := Retained(lg.packets);
    RetainedAppend(lg.packets, tail);
    FlattenAppend(r[1..], [tail]);
    assert Flatten([tail]) == tail + Flatten([]);
    assert Flatten(r) == r[0] + Flatten(r[1..]);
  }

  // ----- positions -----

  datatype Place = Place(index: nat, offset: nat)

  /** The item that contains position pos when items of these sizes lie end to end. */
  function Locate(sizes: seq<nat>, pos: nat): Option<Place> {
    if sizes == [] then
      None
    else if pos < sizes[0] then
      Some(Place(0, pos))
    else
      match Locate(sizes[1..], pos - sizes[0])
      case None => None
      case Some(p) => Some(Place(p.index + 1, p.offset))
  }

  /** (index, offset) names position pos. */
  predicate Denotes(sizes: seq<nat>, p: Place, pos: nat) {
    p.index < |sizes| && p.offset < sizes[p.index] && pos == Sum(sizes[..p.index]) + p.offset
  }

  lemma {:induction false} LocateSound(sizes: seq<nat>, pos: nat)
    ensures Locate(sizes, pos).None? <==> pos >= Sum(sizes)
    ensures Locate(sizes, pos).Some? ==> Denotes(sizes, Locate(sizes, pos).value, pos)
  {
    if sizes != [] && pos >= sizes[0] {
      LocateSound(sizes[1..], pos - sizes[0]);
      if Locate(sizes, pos).Some? {
        var k := Locate(sizes, pos).value.index;
        assert sizes[..k][0] == sizes[0] && sizes[..k][1..] == sizes[1..][..k - 1];
      }
    }
  }

  lemma {:induction false} LocateComplete(sizes: seq<nat>, p: Place, pos: nat)
    requires Denotes(sizes, p, pos)
    ensures Locate(sizes, pos) == Some(p)
  {
    if p.index == 0 {
      assert sizes[..0] == [];
    } else {
      var k := p.index;
      assert sizes[..k][0] == sizes[0] && sizes[..k][1..] == sizes[1..][..k - 1];
      LocateComplete(sizes[1..], Place(k - 1, p.offset), pos - sizes[0]);
    }
  }

  /** Locating and indexing the packet is the same as indexing the flat string. */
  lemma {:induction false} LocateByte(ps: seq<Packet>, pos: nat)
    ensures Locate(Lengths(ps), pos).None? <==> pos >= |Flatten(ps)|
    ensures Locate(Lengths(ps), pos).Some? ==>
              var p := Locate(Lengths(ps), pos).value;
              && p.index < |ps| && p.offset < |ps[p.index]| && pos < |Flatten(ps)|
              && ps[p.index][p.offset] == Flatten(ps)[pos]
  {
    if ps != [] {
      assert Lengths(ps)[1..] == Lengths(ps[1..]);
      if pos >= |ps[0]| {
        LocateByte(ps[1..], pos - |ps[0]|);
      }
    }
  }

  // ----- one read, and a reader that drains -----

  /** What one read of at most count bytes at position pos returns: it stops at the packet's end. */
  function ReadAt(ps: seq<Packet>, pos: nat, count: nat): seq<Byte> {
    if ps == [] then []
    else if pos < |ps[0]| then ps[0][pos..Min(pos + count, |ps[0]|)]
    else ReadAt(ps[1..], pos - |ps[0]|, count)
  }

  /** A read is a slice of the packet that the position is located in. */
  lemma {:induction false} ReadAtPlace(ps: seq<Packet>, pos: nat, count: nat)
    ensures match Locate(Lengths(ps), pos)
            case None => ReadAt(ps, pos, count) == []
            case Some(p) =>
              && p.index < |ps| && p.offset < |ps[p.index]|
              && ReadAt(ps, pos, count) == ps[p.index][p.offset..Min(p.offset + count, |ps[p.index]|)]
  {
    if ps != [] && pos >= |ps[0]| {
      LocateNext(ps, pos);
      ReadAtPlace(ps[1..], pos - |ps[0]|, count);
    }
  }

  /** Past the first packet, the place is the one in the rest, one further on. */
  lemma LocateNext(ps: seq<Packet>, pos: nat)
    requires ps != [] && pos >= |ps[0]|
    ensures match Locate(Lengths(ps[1..]), pos - |ps[0]|)
            case None => Locate(Lengths(ps), pos) == None
            case Some(p) => Locate(Lengths(ps), pos) == Some(Place(p.index + 1, p.offset))
  {
    assert Lengths(ps)[0] == |ps[0]| && Lengths(ps)[1..] == Lengths(ps[1..]);
  }

  /** Past the first packet, a slice of the flat string is a slice of the rest. */
  lemma SliceNext(first: seq<Byte>, rest: seq<Byte>, from: nat, to: nat)
    requires |first| <= from <= to <= |first| + |rest|
    ensures (first + rest)[from..to] == rest[from - |first|..to - |first|]
  {
  }

  lemma SliceFirst(first: seq<Byte>, rest: seq<Byte>, from: nat, to: nat)
    requires from <= to <= |first|
    ensures (first + rest)[from..to] == first[from..to]
  {
  }

  /**
   One read returns the flat string's own bytes at pos, and none only at the end (or when
   none are asked for).
   */
  lemma {:induction false} ReadAtIsContent(ps: seq<Packet>, pos: nat, count: nat)
    ensures var r := ReadAt(ps, pos, count);
            && (r == [] <==> pos >= |Flatten(ps)| || count == 0)
            && |r| <= count
            && (r != [] ==> pos + |r| <= |Flatten(ps)| && r == Flatten(ps)[pos..pos + |r|])
  {
    if ps != [] {
      var r := ReadAt(ps, pos, count);
      if pos < |ps[0]| {
        SliceFirst(ps[0], Flatten(ps[1..]), pos, Min(pos + count, |ps[0]|));
      } else {
        ReadAtIsContent(ps[1..], pos - |ps[0]|, count);
        if r != [] {
          SliceNext(ps[0], Flatten(ps[1..]), pos, pos + |r|);
        }
      }
    }
  }

  /** The non-empty reads of a client that asks for c bytes until it gets none. */
  function Drain(ps: seq<Packet>, pos: nat, c: nat): seq<seq<Byte>>
    requires c > 0
    decreases |Flatten(ps)| - pos
  {
    ReadAtIsContent(ps, pos, c);
    var r := ReadAt(ps, pos, c);
    if r == [] then [] else [r] + Drain(ps, pos + |r|, c)
  }

  /** A drain is its first read, if that is not empty, followed by the drain from where it ended. */
  lemma DrainCons(ps: seq<Packet>, pos: nat, c: nat)
    requires c > 0
    ensures var r := ReadAt(ps, pos, c);
            && (r == [] <==> pos >= |Flatten(ps)|)
            && (r != [] ==> pos + |r| <= |Flatten(ps)|)
            && Drain(ps, pos, c) == if r == [] then [] else [r] + Drain(ps, pos + |r|, c)
  {
    ReadAtIsContent(ps, pos, c);
  }

  function From(bytes: seq<Byte>, pos: nat): seq<Byte> {
    if pos <= |bytes| then bytes[pos..] else []
  }

  lemma DrainJoin(all: seq<Byte>, pos: nat, r: seq<Byte>, rest: seq<seq<Byte>>)
    requires pos + |r| <= |all| && r == all[pos..pos + |r|]
    requires Flatten(rest) == From(all, pos + |r|)
    ensures Flatten([r] + rest) == From(all, pos)
  {
    assert ([r] + rest)[1..] == rest;
    assert all[pos..] == r + all[pos + |r|..];
  }

  /** Completeness: the reads concatenate to everything from pos on. */
  lemma {:induction false} DrainIsContent(ps: seq<Packet>, pos: nat, c: nat)
    requires c > 0
    ensures Flatten(Drain(ps, pos, c)) == From(Flatten(ps), pos)
    decreases |Flatten(ps)| - pos
  {
    ReadAtIsContent(ps, pos, c);
    var all, r := Flatten(ps), ReadAt(ps, pos, c);
    if r == [] {
      assert From(all, pos) == [];
    } else {
      DrainIsContent(ps, pos + |r|, c);
      DrainJoin(all, pos, r, Drain(ps, pos + |r|, c));
    }
  }

  /** The i-th of the parts; none is left after the last. */
  function Part(parts: seq<seq<Byte>>, i: nat): seq<Byte> {
    if i < |parts| then parts[i] else []
  }

  lemma PartsCons(first: seq<Byte>, rest: seq<seq<Byte>>, i: nat)
    requires 0 < i <= 1 + |rest|
    ensures |Flatten(([first] + rest)[..i])| == |first| + |Flatten(rest[..i - 1])|
    ensures Part([first] + rest, i) == Part(rest, i - 1)
  {
    var parts := ([first] + rest)[..i];
    assert parts[0] == first && parts[1..] == rest[..i - 1];
  }

  lemma NothingBefore(parts: seq<seq<Byte>>)
    ensures Flatten(parts[..0]) == []
  {
  }

  /** The i-th read of a drain starts where the first i reads ended, and the one after the last is empty. */
  lemma {:induction false} DrainNth(ps: seq<Packet>, pos: nat, c: nat, i: nat)
    requires c > 0 && i <= |Drain(ps, pos, c)|
    ensures ReadAt(ps, pos + |Flatten(Drain(ps, pos, c)[..i])|, c) == Part(Drain(ps, pos, c), i)
    ensures Part(Drain(ps, pos, c), i) == [] <==> i == |Drain(ps, pos, c)|
    decreases i
  {
    hide ReadAt, Drain, Flatten;
    DrainCons(ps, pos, c);
    var r := ReadAt(ps, pos, c);
    if i == 0 {
      NothingBefore(Drain(ps, pos, c));
    } else {
      PartsCons(r, Drain(ps, pos + |r|, c), i);
      DrainNth(ps, pos + |r|, c, i - 1);
    }
  }

  function BlockCounts(ps: seq<Packet>, c: nat): seq<nat>
    requires c > 0
  {
    seq(|ps|, i requires 0 <= i < |ps| => CeilDiv(|ps[i]|, c))
  }

  /** Blocks of c bytes needed for the packets from pos on, when no block crosses a packet's end. */
  function BlocksFrom(ps: seq<Packet>, pos: nat, c: nat): nat
    requires c > 0
  {
    if ps == [] then 0
    else if pos >= |ps[0]| then BlocksFrom(ps[1..], pos - |ps[0]|, c)
    else CeilDiv(|ps[0]| - pos, c) + Sum(BlockCounts(ps[1..], c))
  }

  lemma {:induction false} BlocksFromStart(ps: seq<Packet>, c: nat)
    requires c > 0
    ensures BlocksFrom(ps, 0, c) == Sum(BlockCounts(ps, c))
  {
    if ps != [] {
      assert BlockCounts(ps, c)[1..] == BlockCounts(ps[1..], c);
      BlocksFromStart(ps[1..], c);
      if |ps[0]| == 0 {
        QuotientIs(c - 1, c, 0);
      }
    }
  }

  lemma BlocksInFirst(ps: seq<Packet>, pos: nat, c: nat)
    requires c > 0 && ps != [] && pos < |ps[0]|
    ensures var r := ReadAt(ps, pos, c);
            r != [] && BlocksFrom(ps, pos, c) == 1 + BlocksFrom(ps, pos + |r|, c)
  {
    if pos + c < |ps[0]| {
      CeilDivStep(|ps[0]| - pos, c);
    } else {
      CeilDivSmall(|ps[0]| - pos, c);
      BlocksFromStart(ps[1..], c);
    }
  }

  lemma {:induction false} BlocksFromStep(ps: seq<Packet>, pos: nat, c: nat)
    requires c > 0
    ensures var r := ReadAt(ps, pos, c);
            BlocksFrom(ps, pos, c) == if r == [] then 0 else 1 + BlocksFrom(ps, pos + |r|, c)
  {
    if ps != [] {
      if pos < |ps[0]| {
        BlocksInFirst(ps, pos, c);
      } else {
        BlocksFromStep(ps[1..], pos - |ps[0]|, c);
      }
    }
  }

  lemma {:induction false} DrainCount(ps: seq<Packet>, pos: nat, c: nat)
    requires c > 0
    ensures |Drain(ps, pos, c)| == BlocksFrom(ps, pos, c)
    decreases |Flatten(ps)| - pos
  {
    DrainCons(ps, pos, c);
    BlocksFromStep(ps, pos, c);
    var r := ReadAt(ps, pos, c);
    if r != [] {
      DrainCount(ps, pos + |r|, c);
    }
  }

  /** From the start, a drain takes exactly the sum over packets of ceil(size / c) non-empty reads. */
  lemma DrainReadsFromStart(ps: seq<Packet>, c: nat)
    requires c > 0
    ensures |Drain(ps, 0, c)| == Sum(BlockCounts(ps, c))
    ensures Flatten(Drain(ps, 0, c)) == Flatten(ps)
  {
    DrainCount(ps, 0, c);
    BlocksFromStart(ps, c);
    DrainIsContent(ps, 0, c);
  }

  lemma {:induction false} ReadAtAppend(ps: seq<Packet>, p: Packet, pos: nat, count: nat)
    requires pos < |Flatten(ps)|
    ensures ReadAt(ps + [p], pos, count) == ReadAt(ps, pos, count)
  {
    assert (ps + [p])[0] == ps[0] && (ps + [p])[1..] == ps[1..] + [p];
    if pos >= |ps[0]| {
      ReadAtAppend(ps[1..], p, pos - |ps[0]|, count);
    }
  }

  lemma ReadAtShifted(ps: seq<Packet>, p: Packet, pos: nat, count: nat)
    requires ps != [] && pos + |ps[0]| < |Flatten(ps)|
    ensures ReadAt(ps[1..] + [p], pos, count) == ReadAt(ps, pos + |ps[0]|, count)
  {
    ReadAtAppend(ps[1..], p, pos, count);
  }

  /** After an eviction of s bytes, a read at pos returns what a read at pos + s returned before. */
  lemma EvictionShiftsReads(lg: Log, bytes: seq<Byte>, pos: nat, count: nat)
    requires Terminated(lg.pending + bytes) && |lg.packets| >= CAPACITY
    requires pos + |Retained(lg.packets)[0]| < |Content(lg)|
    ensures ReadAt(Retained(Accept(lg, bytes).packets), pos, count)
         == ReadAt(Retained(lg.packets), pos + |Retained(lg.packets)[0]|, count)
  {
    RetainedAppend(lg.packets, lg.pending + bytes);
    ReadAtShifted(Retained(lg.packets), lg.pending + bytes, pos, count);
  }

  // ----- chunking -----

  /** A byte stream whose only newline, if any, is its last byte. */
  predicate SingleLine(bytes: seq<Byte>) {
    forall i :: 0 <= i < |bytes| - 1 ==> bytes[i] != NEWLINE
  }

  lemma FirstChunk(c: seq<Byte>, rest: seq<Byte>, pending: seq<Byte>)
    requires SingleLine(c + rest) && c != [] && rest != []
    ensures !Terminated(pending + c) && SingleLine(rest)
    ensures pending + c + rest == pending + (c + rest)
  {
    assert (c + rest)[|c| - 1] == c[|c| - 1];
    assert forall i :: 0 <= i < |rest| ==> rest[i] == (c + rest)[|c| + i];
  }

  /** However a line is cut into non-empty chunks, the log ends up the same. */
  lemma {:induction false} ChunkingInvariance(lg: Log, chunks: seq<seq<Byte>>)
    requires SingleLine(Flatten(chunks)) && !Terminated(lg.pending)
    requires forall i :: 0 <= i < |chunks| ==> chunks[i] != []
    ensures AcceptAll(lg, chunks) == Accept(lg, Flatten(chunks))
    decreases |chunks|
  {
    if chunks == [] {
      assert lg.pending + [] == lg.pending;
    } else if |chunks| == 1 {
      assert Flatten(chunks) == chunks[0] + Flatten([]) == chunks[0];
      assert AcceptAll(lg, chunks) == AcceptAll(Accept(lg, chunks[0]), []);
    } else {
      var rest := chunks[1..];
      assert Flatten(rest) == rest[0] + Flatten(rest[1..]);
      FirstChunk(chunks[0], Flatten(rest), lg.pending);
      ChunkingInvariance(Log(lg.packets, lg.pending + chunks[0]), rest);
    }
  }
}
