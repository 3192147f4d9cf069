/** What reading a pinned file may cost and answer (`_read_pin` in src/agenttalk/acceptance_preflight.py). */
module PinLimits {
  import opened Wrappers

  type Byte = b: int | 0 <= b < 256

  type Digest = string

  const CHUNK_BYTES: nat := 1024 * 1024
  const MAX_INPUT_BYTES: nat := 1024 * 1024
  const MAX_DISTRIBUTION_BYTES: nat := 2 * 1024 * 1024 * 1024

  datatype Pin = Pin(size: nat, sha256: Digest, distribution: bool)

  /** Where reading fails, and how: at a link, or in a way that the policy forbids. */
  datatype Break = Break(at: nat, linked: bool, unsafe: bool)

  /** A staged file: its bytes, and where reading them fails, if it does. */
  datatype Content = Content(bytes: seq<Byte>, breaks: Option<Break>)

  /** `TooBig`, `Differs` and `Broken` stand for the three holds the source answers with. */
  datatype Outcome = Accepted | TooBig | Differs | Broken(linked: bool, unsafe: bool)

  function Limit(pin: Pin): nat
  {
    if pin.distribution then MAX_DISTRIBUTION_BYTES else MAX_INPUT_BYTES
  }

  predicate FitsLimits(pin: Pin, budget: int)
  {
    pin.size <= Limit(pin) && pin.size <= budget
  }

  /** How far reading goes before a limit stops it; the byte after that proves the excess. */
  function Ceiling(pin: Pin, budget: int): int
  {
    if pin.distribution then pin.size else Min(MAX_INPUT_BYTES, budget)
  }

  function Min(a: int, b: int): int
  {
    if a < b then a else b
  }

  /** Reading fails before it has seen the end of the file, or that there is too much of it. */
  predicate Breaks(pin: Pin, budget: int, content: Content)
  {
    content.breaks.Some? && content.breaks.value.at <= Min(|content.bytes|, Ceiling(pin, budget))
  }

  function Verdict(pin: Pin, budget: int, content: Content, hash: seq<Byte> -> Digest): Outcome
  {
    if !FitsLimits(pin, budget) then TooBig
    else if Breaks(pin, budget, content) then Broken(content.breaks.value.linked, content.breaks.value.unsafe)
    else if |content.bytes| > Ceiling(pin, budget) then (if pin.distribution then Differs else TooBig)
    else if |content.bytes| != pin.size || hash(content.bytes) != pin.sha256 then Differs
    else Accepted
  }

  /** What reading takes from the budget. */
  function Spent(pin: Pin, budget: int, content: Content): int
  {
    if !FitsLimits(pin, budget) then 0
    else if Breaks(pin, budget, content) then content.breaks.value.at
    else Min(|content.bytes|, Ceiling(pin, budget) + 1)
  }

  /** The file can be read to its end. */
  predicate IsWhole(content: Content)
  {
    content.breaks == None || content.breaks.value.at > |content.bytes|
  }

  /** Accepted exactly when the whole file can be read, has the pinned size and digest and fits both limits. */
  lemma {:induction false} AcceptedExactly(pin: Pin, budget: int, content: Content, hash: seq<Byte> -> Digest)
    ensures Verdict(pin, budget, content, hash) == Accepted <==>
      && IsWhole(content) && |content.bytes| == pin.size && hash(content.bytes) == pin.sha256 && |content.bytes| <= budget
      && |content.bytes| <= if pin.distribution then 2147483648 else 1048576
    ensures Verdict(pin, budget, content, hash) == Accepted ==> Spent(pin, budget, content) == |content.bytes|
  {
  }

  /** When there is too much to read: by what the pin says, or, unless it is a distribution, by what the file holds. */
  lemma {:induction false} TooBigExactly(pin: Pin, budget: int, content: Content, hash: seq<Byte> -> Digest)
    ensures Verdict(pin, budget, content, hash) == TooBig <==>
      || pin.size > budget || pin.size > (if pin.distribution then 2147483648 else 1048576)
      || (!pin.distribution && |content.bytes| > budget && (content.breaks.Some? ==> content.breaks.value.at > budget))
      || (!pin.distribution && |content.bytes| > 1048576 && (content.breaks.Some? ==> content.breaks.value.at > 1048576))
  {
  }
}
