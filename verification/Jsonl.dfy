/**
Append-only JSONL ledgers (src/agenttalk/_jsonl.py) under torn writes: an append may stop after any
number of bytes, by a failing write or a crash.
*/
module Jsonl {

  type Byte = b: int | 0 <= b < 256

  type Bytes = seq<Byte>

  const NEWLINE: Byte := 10

  predicate OneLine(bs: Bytes)
  {
    forall i :: 0 <= i < |bs| ==> bs[i] != NEWLINE
  }

  // ------------------------------------------------------------ physical lines

  /** The terminated lines of a file, without their newlines, and what follows the last newline. */
  datatype Split = Split(lines: seq<Bytes>, tail: Bytes)

  function Feed(s: Split, b: Byte): Split
  {
    if b == NEWLINE then Split(s.lines + [s.tail], []) else s.(tail := s.tail + [b])
  }

  function FeedAll(s: Split, bs: Bytes): Split
    decreases |bs|
  {
    if bs == [] then s else FeedAll(Feed(s, bs[0]), bs[1..])
  }

  function SplitOf(content: Bytes): Split
  {
    FeedAll(Split([], []), content)
  }

  /** A reader takes an unterminated tail for a line too. */
  function LinesOf(s: Split): seq<Bytes>
  {
    s.lines + if s.tail == [] then [] else [s.tail]
  }

  function PhysicalLines(content: Bytes): seq<Bytes>
  {
    LinesOf(SplitOf(content))
  }

  lemma {:induction false} FeedConcat(s: Split, a: Bytes, b: Bytes)
    ensures FeedAll(s, a + b) == FeedAll(FeedAll(s, a), b)
    decreases |a|
  {
    if a == [] {
      assert a + b == b;
    } else {
      assert (a + b)[1..] == a[1..] + b;
      FeedConcat(Feed(s, a[0]), a[1..], b);
    }
  }

  lemma {:induction false} FeedOneLine(s: Split, bs: Bytes)
    requires OneLine(bs)
    ensures FeedAll(s, bs) == s.(tail := s.tail + bs)
    decreases |bs|
  {
    if bs == [] {
      assert s.tail + bs == s.tail;
    } else {
      FeedOneLine(Feed(s, bs[0]), bs[1..]);
      assert s.tail + [bs[0]] + bs[1..] == s.tail + bs;
    }
  }

  /** The tail is empty exactly for a file that is empty or ends in a newline. */
  lemma {:induction false} TailIsOpen(content: Bytes)
    ensures SplitOf(content).tail == [] <==> content == [] || content[|content| - 1] == NEWLINE
  {
    if content != [] {
      var n := |content| - 1;
      assert content == content[..n] + [content[n]];
      FeedConcat(Split([], []), content[..n], [content[n]]);
      assert FeedAll(SplitOf(content[..n]), [content[n]]) == Feed(SplitOf(content[..n]), content[n]);
    }
  }

  // ------------------------------------------------------------ appending

  /** Everything one append writes: the newline a tail lacks, the record, its own newline. */
  function Delta(content: Bytes, payload: Bytes): Bytes
  {
    (if content != [] && content[|content| - 1] != NEWLINE then [NEWLINE] else []) + payload + [NEWLINE]
  }

  class File {
    var content: Bytes

    constructor (content: Bytes)
      ensures this.content == content
    {
      this.content := content;
    }

    /** The operating system takes some of the bytes, or none. */
    method Write(data: Bytes) returns (written: nat)
      requires data != []
      modifies this
      ensures written <= |data| && content == old(content) + data[..written]
    {
      written :| 0 <= written <= |data| by {
        assert 0 <= |data|;
      }
      content := content + data[..written];
    }

    /** Repeats short writes; a write that takes nothing fails, with a prefix written. */
    method WriteAll(data: Bytes) returns (ok: bool, ghost n: nat)
      modifies this
      ensures n <= |data| && content == old(content) + data[..n]
      ensures ok <==> n == |data|
    {
      var remaining := data;
      n := 0;
      while remaining != []
        invariant n <= |data| && remaining == data[n..] && content == old(content) + data[..n]
        decreases |remaining|
      {
        ghost var before := n;
        var written := Write(remaining);
        n := n + written;
        assert data[..before] + data[before..][..written] == data[..n];
        if written == 0 {
          return false, n;
        }
        remaining := remaining[written..];
      }
      return true, n;
    }

    method AppendRecord(payload: Bytes) returns (ok: bool, ghost n: nat)
      modifies this
      ensures n <= |Delta(old(content), payload)|
      ensures content == old(content) + Delta(old(content), payload)[..n]
      ensures ok <==> n == |Delta(old(content), payload)|
    {
      ghost var before, delta := content, Delta(content, payload);
      ghost var start := 0;
      if |content| > 0 {
        var last := content[|content| - 1];
        if last != NEWLINE {
          ok, start := WriteAll([NEWLINE]);
          assert [NEWLINE][..start] == delta[..start];
          if !ok {
            return false, start;
          }
        }
      }
      assert content == before + delta[..start] && delta[start..] == payload + [NEWLINE];
      ghost var more;
      ok, more := WriteAll(payload + [NEWLINE]);
      n := start + more;
      assert delta[..start] + delta[start..][..more] == delta[..n];
    }
  }

  // ------------------------------------------------------------ any number of appends and crashes

  /** An append of a record of which n bytes reached the file; all of them when it completed. */
  datatype Event = Event(payload: Bytes, n: nat)

  predicate Possible(content: Bytes, e: Event)
  {
    OneLine(e.payload) && e.payload != [] && e.n <= |Delta(content, e.payload)|
  }

  function After(content: Bytes, e: Event): Bytes
    requires Possible(content, e)
  {
    content + Delta(content, e.payload)[..e.n]
  }

  predicate Completed(content: Bytes, e: Event)
  {
    e.n == |Delta(content, e.payload)|
  }

  /** How many bytes of the record itself, without newlines, were written. */
  function Kept(content: Bytes, e: Event): nat
    requires Possible(content, e)
  {
    var lead := |Delta(content, e.payload)| - |e.payload| - 1;
    if e.n <= lead then 0 else if e.n - lead <= |e.payload| then e.n - lead else |e.payload|
  }

  /** The lines one event adds: the record, a torn beginning of it, or nothing. */
  function Added(content: Bytes, e: Event): seq<Bytes>
    requires Possible(content, e)
  {
    var k := Kept(content, e);
    if k == 0 then [] else [e.payload[..k]]
  }

  /** The newline before the record only closes a line that was there. */
  lemma {:induction false} LeadCloses(content: Bytes, lead: Bytes)
    requires lead == if content != [] && content[|content| - 1] != NEWLINE then [NEWLINE] else []
    ensures var s := SplitOf(content + lead); s.tail == [] && LinesOf(s) == PhysicalLines(content)
  {
    TailIsOpen(content);
    FeedConcat(Split([], []), content, lead);
    var s := SplitOf(content);
    assert lead != [] ==> FeedAll(s, lead) == Feed(s, NEWLINE);
  }

  /** No event changes a line that was there, and what it writes is on a line of its own. */
  lemma {:induction false} EventAddsItsOwnLine(content: Bytes, e: Event)
    requires Possible(content, e)
    ensures PhysicalLines(After(content, e)) == PhysicalLines(content) + Added(content, e)
    ensures Completed(content, e) ==> Added(content, e) == [e.payload]
  {
    var lead: Bytes := if content != [] && content[|content| - 1] != NEWLINE then [NEWLINE] else [];
    var record := e.payload + [NEWLINE];
    assert Delta(content, e.payload) == lead + record;
    assert e.payload[..|e.payload|] == e.payload;
    if e.n < |lead| {
      assert After(content, e) == content;
    } else {
      var m := e.n - |lead|;
      assert (lead + record)[..e.n] == lead + record[..m];
      assert After(content, e) == (content + lead) + record[..m];
      LeadCloses(content, lead);
      FeedConcat(Split([], []), content + lead, record[..m]);
      FeedPayload(SplitOf(content + lead), e.payload, m);
    }
  }

  lemma {:induction false} FeedPayload(s: Split, payload: Bytes, n: nat)
    requires s.tail == [] && OneLine(payload) && payload != [] && n <= |payload| + 1
    ensures LinesOf(FeedAll(s, (payload + [NEWLINE])[..n]))
         == LinesOf(s) + if n == 0 then [] else [payload[..if n <= |payload| then n else |payload|]]
  {
    if n <= |payload| {
      assert (payload + [NEWLINE])[..n] == payload[..n];
      FeedOneLine(s, payload[..n]);
      assert s.tail + payload[..n] == payload[..n];
    } else {
      assert (payload + [NEWLINE])[..n] == payload + [NEWLINE];
      FeedConcat(s, payload, [NEWLINE]);
      FeedOneLine(s, payload);
      assert s.tail + payload == payload == payload[..|payload|];
      var open := s.(tail := payload);
      assert FeedAll(open, [NEWLINE]) == Feed(open, NEWLINE);
    }
  }

  ghost predicate IsRun(start: Bytes, events: seq<Event>, contents: seq<Bytes>)
  {
    && |contents| == |events| + 1 && contents[0] == start
    && (forall i :: 0 <= i < |events| ==> Possible(contents[i], events[i]))
    && (forall i :: 0 <= i < |events| ==> contents[i + 1] == After(contents[i], events[i]))
  }

  function AllAdded(events: seq<Event>, contents: seq<Bytes>, n: nat): seq<Bytes>
    requires n <= |events| <= |contents| && forall i :: 0 <= i < n ==> Possible(contents[i], events[i])
  {
    if n == 0 then [] else AllAdded(events, contents, n - 1) + Added(contents[n - 1], events[n - 1])
  }

  /**
  After any run the file's lines are the lines it started with, hand-written tail included, followed
  by exactly one line for every event that wrote part of its record, in order; the line of a
  completed append is the whole record.
  */
  lemma {:induction false} LedgerKeepsEverything(start: Bytes, events: seq<Event>, contents: seq<Bytes>, n: nat)
    requires IsRun(start, events, contents) && n <= |events|
    ensures PhysicalLines(contents[n]) == PhysicalLines(start) + AllAdded(events, contents, n)
    ensures forall i :: 0 <= i < n && Completed(contents[i], events[i]) ==> events[i].payload in PhysicalLines(contents[n])
  {
    if n == 0 {
      assert PhysicalLines(start) + [] == PhysicalLines(start);
    } else {
      LedgerKeepsEverything(start, events, contents, n - 1);
      EventAddsItsOwnLine(contents[n - 1], events[n - 1]);
      assert contents[n - 1 + 1] == After(contents[n - 1], events[n - 1]);
    }
  }

  /** Iteration over the physical lines, each with its newline if it has one. */
  method IterLines(content: Bytes) returns (lines: seq<Bytes>)
    ensures |lines| == |PhysicalLines(content)|
    ensures forall i :: 0 <= i < |lines| ==>
      lines[i] == PhysicalLines(content)[i] + (if i < |SplitOf(content).lines| then [NEWLINE] else [])
  {
    lines := [];
    var line: Bytes := [];
    for i := 0 to |content|
      invariant SplitOf(content[..i]).tail == line && |SplitOf(content[..i]).lines| == |lines|
      invariant forall j :: 0 <= j < |lines| ==> lines[j] == SplitOf(content[..i]).lines[j] + [NEWLINE]
    {
      assert content[..i + 1] == content[..i] + [content[i]];
      FeedConcat(Split([], []), content[..i], [content[i]]);
      assert FeedAll(SplitOf(content[..i]), [content[i]]) == Feed(SplitOf(content[..i]), content[i]);
      if content[i] == NEWLINE {
        lines := lines + [line + [NEWLINE]];
        line := [];
      } else {
        line := line + [content[i]];
      }
    }
    assert content[..|content|] == content;
    if line != [] {
      lines := lines + [line];
    }
  }
}
