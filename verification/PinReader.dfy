/**
Reading pinned files on one shared budget (`_read_pin` in src/agenttalk/acceptance_preflight.py).
A stream may deliver any short pieces and may break at any read; neither may change what is
accepted, nor let more be read than the budget and its one sentinel byte.
*/
module PinReader {
  import opened Wrappers
  import opened PinLimits

  /** An open file. */
  class Stream {
    const content: Content
    var position: nat

    constructor (content: Content)
      ensures this.content == content && position == 0
    {
      this.content, position := content, 0;
    }

    /** Reading fails from here on. */
    predicate Fails()
      reads this
    {
      content.breaks.Some? && content.breaks.value.at <= position
    }

    /** At least one byte unless at the end or at the break, at most n; or a failure that consumes nothing. */
    method Read(n: nat) returns (ok: bool, data: seq<Byte>)
      requires n > 0 && position <= |content.bytes|
      modifies this
      ensures old(position) <= position <= |content.bytes| && data == content.bytes[old(position)..position]
      ensures ok <==> !old(Fails())
      ensures ok ==> |data| <= n && (data == [] <==> old(position) == |content.bytes|)
      ensures ok && content.breaks.Some? ==> position <= content.breaks.value.at
      ensures !ok ==> data == []
    {
      ok := !Fails();
      var size: nat := 0;
      if ok && position < |content.bytes| {
        var room := |content.bytes| - position;
        if content.breaks.Some? {
          room := Min(room, content.breaks.value.at - position);
        }
        size :| 1 <= size <= n && size <= room by {
          assert 1 <= n && 1 <= room;
        }
      }
      data := content.bytes[position..position + size];
      position := position + size;
    }
  }

  class Budget {
    var left: int

    constructor (left: int)
      ensures this.left == left
    {
      this.left := left;
    }
  }

  method ReadPin(stream: Stream, pin: Pin, budget: Budget, hash: seq<Byte> -> Digest) returns (r: Outcome)
    requires stream.position == 0 && budget.left >= -1
    modifies stream, budget
    ensures budget.left == old(budget.left) - stream.position && budget.left >= -1
    ensures r == Verdict(pin, old(budget.left), stream.content, hash)
    ensures stream.position == Spent(pin, old(budget.left), stream.content)
  {
    var limit := Limit(pin);
    if pin.size > limit || pin.size > budget.left {
      return TooBig;
    }
    if pin.distribution {
      limit := pin.size;
    }
    var size, hashed := 0, [];
    ghost var ceiling, bytes := Ceiling(pin, budget.left), stream.content.bytes;
    while true
      invariant 0 <= size == stream.position <= |bytes| && budget.left == old(budget.left) - size
      invariant hashed == bytes[..size]
      invariant size <= limit && budget.left >= 0 && size <= ceiling
      invariant stream.content.breaks.Some? ==> size <= stream.content.breaks.value.at
      decreases |bytes| - size
    {
      var ok, data := stream.Read(Min(CHUNK_BYTES, Min(limit - size + 1, budget.left + 1)));
      if !ok {
        return Broken(stream.content.breaks.value.linked, stream.content.breaks.value.unsafe);
      }
      if data == [] {
        break;
      }
      size := size + |data|;
      budget.left := budget.left - |data|;
      if pin.distribution && size > pin.size {
        return Differs;
      }
      if size > limit || budget.left < 0 {
        return TooBig;
      }
      hashed := hashed + data;
    }
    assert hashed == bytes;
    if size != pin.size || hash(hashed) != pin.sha256 {
      return Differs;
    }
    return Accepted;
  }

  // ------------------------------------------------------------ many pins, two budgets

  /** The bytes read for the first n pins of the kind. */
  function Total(pins: seq<Pin>, read: seq<nat>, n: nat, distribution: bool): nat
    requires n <= |pins| && n <= |read|
  {
    if n == 0 then 0
    else Total(pins, read, n - 1, distribution) + if pins[n - 1].distribution == distribution then read[n - 1] else 0
  }

  /** What pin i finds left of the budget of its kind. */
  function Left(distributions: int, declaratives: int, pins: seq<Pin>, read: seq<nat>, i: nat): int
    requires i < |pins| && i <= |read|
  {
    (if pins[i].distribution then distributions else declaratives) - Total(pins, read, i, pins[i].distribution)
  }

  lemma {:induction false} TotalOfFirst(pins: seq<Pin>, read: seq<nat>, more: nat, n: nat, distribution: bool)
    requires n <= |pins| && n <= |read|
    ensures Total(pins, read + [more], n, distribution) == Total(pins, read, n, distribution)
  {
    if n > 0 {
      TotalOfFirst(pins, read, more, n - 1, distribution);
    }
  }

  /** Pin i was judged on what the earlier ones of its kind had left. */
  predicate JudgedAt(
    contents: seq<Content>, pins: seq<Pin>, distributions: int, declaratives: int, hash: seq<Byte> -> Digest,
    outcomes: seq<Outcome>, read: seq<nat>, i: nat)
    requires i < |pins| && i < |contents| && i < |outcomes| && i < |read|
  {
    Judged(contents[i], pins[i], Left(distributions, declaratives, pins, read, i), hash, outcomes[i], read[i])
  }

  lemma {:induction false} JudgedStays(
    contents: seq<Content>, pins: seq<Pin>, distributions: int, declaratives: int, hash: seq<Byte> -> Digest,
    outcomes: seq<Outcome>, read: seq<nat>, outcome: Outcome, more: nat, i: nat)
    requires i < |pins| && i < |contents| && i < |outcomes| && i < |read|
    requires JudgedAt(contents, pins, distributions, declaratives, hash, outcomes, read, i)
    ensures JudgedAt(contents, pins, distributions, declaratives, hash, outcomes + [outcome], read + [more], i)
  {
    TotalOfFirst(pins, read, more, i, pins[i].distribution);
  }

  /**
  Over any sequence of pins the bytes read of either kind are the budget of that kind spent, at most the budget and one
  byte more, and each pin is judged against what the earlier ones of its kind left.
  */
  method ReadAll(
      contents: seq<Content>, pins: seq<Pin>, distributions: Budget, declaratives: Budget, hash: seq<Byte> -> Digest)
    returns (outcomes: seq<Outcome>, read: seq<nat>)
    requires |contents| == |pins| && distributions != declaratives && distributions.left >= -1 && declaratives.left >= -1
    modifies distributions, declaratives
    ensures |outcomes| == |read| == |pins|
    ensures Total(pins, read, |pins|, true) == old(distributions.left) - distributions.left <= old(distributions.left) + 1
    ensures Total(pins, read, |pins|, false) == old(declaratives.left) - declaratives.left <= old(declaratives.left) + 1
    ensures forall i :: 0 <= i < |pins| ==>
      JudgedAt(contents, pins, old(distributions.left), old(declaratives.left), hash, outcomes, read, i)
  {
    outcomes, read := [], [];
    ghost var most, few := distributions.left, declaratives.left;
    for i := 0 to |pins|
      invariant |outcomes| == |read| == i && distributions.left >= -1 && declaratives.left >= -1
      invariant Total(pins, read, i, true) == most - distributions.left
      invariant Total(pins, read, i, false) == few - declaratives.left
      invariant forall j :: 0 <= j < i ==> JudgedAt(contents, pins, most, few, hash, outcomes, read, j)
    {
      ghost var outcomesBefore, readBefore := outcomes, read;
      var stream := new Stream(contents[i]);
      var outcome := ReadPin(stream, pins[i], if pins[i].distribution then distributions else declaratives, hash);
      outcomes, read := outcomes + [outcome], read + [stream.position];
      TotalOfFirst(pins, readBefore, stream.position, i, true);
      TotalOfFirst(pins, readBefore, stream.position, i, false);
      forall j | 0 <= j < i ensures JudgedAt(contents, pins, most, few, hash, outcomes, read, j) {
        JudgedStays(contents, pins, most, few, hash, outcomesBefore, readBefore, outcome, stream.position, j);
      }
    }
  }

  predicate Judged(content: Content, pin: Pin, budget: int, hash: seq<Byte> -> Digest, outcome: Outcome, read: nat)
  {
    outcome == Verdict(pin, budget, content, hash) && read == Spent(pin, budget, content)
  }
}
