/** Bounded newline-delimited frames over a byte stream that arrives in arbitrary chunks. */
module FrameReader {
  import opened Wrappers

  newtype Byte = x: int | 0 <= x < 256

  type Bytes = seq<Byte>

  const NEWLINE: Byte := 10
  const FRAME_LIMIT: nat := 2 * 1024 * 1024
  const CHUNK: nat := 64 * 1024

  datatype Item = Frame(bytes: Bytes) | Oversized

  predicate IsFirstNewline(s: Bytes, n: int) {
    && 0 <= n <= |s|
    && (forall i :: 0 <= i < n ==> s[i] != NEWLINE)
    && (n < |s| ==> s[n] == NEWLINE)
  }

  /** The position of the first newline, or the length if there is none. */
  function Newline(s: Bytes): (n: nat)
    ensures IsFirstNewline(s, n)
  {
    NewlineExists(s);
    var n: int :| 0 <= n <= |s| && IsFirstNewline(s, n);
    n
  }

  lemma {:induction false} NewlineExists(s: Bytes)
    ensures exists n: int :: 0 <= n <= |s| && IsFirstNewline(s, n)
  {
    if s == [] || s[0] == NEWLINE {
      assert IsFirstNewline(s, 0);
    } else {
      NewlineExists(s[1..]);
      var n: int :| 0 <= n <= |s[1..]| && IsFirstNewline(s[1..], n);
      assert forall i :: 1 <= i < n + 1 ==> s[i] == s[1..][i - 1];
      assert IsFirstNewline(s, n + 1);
    }
  }

  /** The line splitter: each line keeps its newline; the last one may lack it. */
  function Lines(s: Bytes): seq<Bytes> {
    if s == [] then []
    else
      var n := Newline(s);
      if n == |s| then [s] else [s[..n + 1]] + Lines(s[n + 1..])
  }

  function Judge(line: Bytes): Item {
    if FRAME_LIMIT < |line| then Oversized else Frame(line)
  }

  function Judged(lines: seq<Bytes>): (items: seq<Item>)
    ensures |items| == |lines|
    ensures forall i :: 0 <= i < |lines| ==> items[i] == Judge(lines[i])
  {
    seq(|lines|, i requires 0 <= i < |lines| => Judge(lines[i]))
  }

  /** What a reader of the whole stream should report. */
  function Items(s: Bytes): seq<Item> {
    Judged(Lines(s))
  }

  function Joined(parts: seq<Bytes>): Bytes {
    if parts == [] then [] else parts[0] + Joined(parts[1..])
  }

  /** Splitting loses nothing, and the only newline of a line is its last byte. */
  lemma {:induction false} LinesPartition(s: Bytes)
    ensures Joined(Lines(s)) == s
    ensures forall i :: 0 <= i < |Lines(s)| ==> IsLine(Lines(s)[i], i == |Lines(s)| - 1)
  {
    if s != [] {
      var n := Newline(s);
      if n == |s| {
        assert Lines(s) == [s] && Joined([]) == [];
      } else {
        LinesPartition(s[n + 1..]);
        assert s == s[..n + 1] + s[n + 1..];
      }
    }
  }

  predicate IsLine(line: Bytes, last: bool) {
    && line != []
    && NEWLINE !in line[..|line| - 1]
    && (last || line[|line| - 1] == NEWLINE)
  }

  class Reader {
    var buffer: Bytes
    var discarding: bool

    /** The chunks the descriptor has yet to deliver; after them it reports the end for ever. */
    var input: seq<Bytes>

    constructor (chunks: seq<Bytes>)
      requires ChunksAllowed(chunks)
      ensures Valid() && input == chunks && Pending() == Items(Joined(chunks))
    {
      buffer, discarding, input := [], false, chunks;
      new;
      assert buffer + Joined(input) == Joined(input);
    }

    predicate Valid()
      reads this
    {
      |buffer| <= FRAME_LIMIT + CHUNK && ChunksAllowed(input)
    }

    /** The items still to be reported. */
    function Pending(): seq<Item>
      reads this
    {
      Remaining(discarding, buffer + Joined(input))
    }

    method ReadChunk() returns (chunk: Bytes)
      requires Valid()
      modifies this`input
      ensures Valid() && |chunk| <= CHUNK
      ensures chunk == [] <==> old(input) == []
      ensures Joined(old(input)) == chunk + Joined(input)
      ensures |input| == if chunk == [] then 0 else |old(input)| - 1
    {
      if input == [] {
        return [];
      }
      chunk, input := input[0], input[1..];
    }

    /** One call reports exactly the next item of the line splitter, however the stream was cut. */
    method Read() returns (r: Option<Item>)
      requires Valid()
      modifies this
      ensures Valid()
      ensures r == if old(Pending()) == [] then None else Some(old(Pending())[0])
      ensures Pending() == if old(Pending()) == [] then [] else old(Pending())[1..]
    {
      while true
        invariant Valid() && Pending() == old(Pending())
        decreases |input|
      {
        var newline := Newline(buffer);
        if newline < |buffer| {
          r := TakeLine(newline);
          return;
        }
        if discarding {
          StillDiscarding(buffer, Joined(input));
          buffer := [];
        } else if FRAME_LIMIT < |buffer| {
          StartDiscarding(buffer, Joined(input));
          buffer, discarding := [], true;
        }
        assert Newline(buffer) == |buffer|;
        var grown := Fill();
        if !grown {
          AtEnd(discarding, buffer);
          r := if discarding then Some(Oversized) else if buffer == [] then None else Some(Judge(buffer));
          buffer, discarding := [], false;
          return;
        }
      }
    }

    /** A complete line is in the buffer: report it, and stop discarding. */
    method TakeLine(newline: nat) returns (r: Option<Item>)
      requires Valid() && newline == Newline(buffer) < |buffer|
      modifies this`buffer, this`discarding
      ensures Valid() && r.Some? && Yields(old(Pending()), r.value, Pending())
    {
      DropLine(discarding, buffer, Joined(input));
      var frame := buffer[..newline + 1];
      r := Some(if discarding then Oversized else Judge(frame));
      buffer, discarding := buffer[newline + 1..], false;
    }

    /** Append the next chunk to the buffer, unless the stream has ended. */
    method Fill() returns (grown: bool)
      requires Valid() && |buffer| <= FRAME_LIMIT
      modifies this`buffer, this`input
      ensures Valid() && Pending() == old(Pending())
      ensures grown ==> |input| < |old(input)|
      ensures !grown ==> buffer == old(buffer) && input == []
    {
      var chunk := ReadChunk();
      buffer := buffer + chunk;
      assert old(buffer) + Joined(old(input)) == buffer + Joined(input);
      grown := chunk != [];
    }

    /** Reading until the end reports the items of the whole stream, for every way of cutting it. */
    method ReadAll() returns (items: seq<Item>)
      requires Valid()
      modifies this
      ensures Valid() && items == old(Pending())
    {
      items := [];
      while true
        invariant Valid()
        invariant items + Pending() == old(Pending())
        decreases |Pending()|
      {
        ghost var pending := Pending();
        var item := Read();
        if item.None? {
          return;
        }
        Shift(items, pending);
        items := items + [item.value];
      }
    }
  }

  lemma Shift<T>(done: seq<T>, pending: seq<T>)
    requires pending != []
    ensures (done + [pending[0]]) + pending[1..] == done + pending
  {
  }

  predicate ChunksAllowed(chunks: seq<Bytes>) {
    forall c :: c in chunks ==> 0 < |c| <= CHUNK
  }

  /** What follows the first line. */
  function AfterLine(s: Bytes): Bytes {
    if Newline(s) == |s| then [] else s[Newline(s) + 1..]
  }

  /** While discarding, the stream begins inside a line already known to be too long. */
  function Remaining(discarding: bool, s: Bytes): seq<Item> {
    if discarding then [Oversized] + Items(AfterLine(s)) else Items(s)
  }

  lemma NewlineStays(a: Bytes, b: Bytes)
    ensures Newline(a) < |a| ==> Newline(a + b) == Newline(a)
    ensures Newline(a) == |a| ==> Newline(a + b) == |a| + Newline(b)
  {
    var n := if Newline(a) < |a| then Newline(a) else |a| + Newline(b);
    assert IsFirstNewline(a + b, n);
  }

  /** At the end of the stream an unterminated line counts as a line. */
  lemma AtEnd(discarding: bool, buffer: Bytes)
    requires Newline(buffer) == |buffer|
    ensures var items := Remaining(discarding, buffer + Joined([]));
      if !discarding && buffer == [] then items == []
      else Yields(items, if discarding then Oversized else Judge(buffer), [])
    ensures Remaining(false, [] + Joined([])) == []
  {
  }

  lemma SliceInFirst(a: Bytes, b: Bytes, k: nat)
    requires k <= |a|
    ensures (a + b)[..k] == a[..k] && (a + b)[k..] == a[k..] + b
  {
  }

  lemma SliceInSecond(a: Bytes, b: Bytes, k: nat)
    requires |a| <= k <= |a| + |b|
    ensures (a + b)[k..] == b[k - |a|..]
  {
  }

  lemma FirstItem(s: Bytes)
    requires Newline(s) < |s|
    ensures Items(s) == [Judge(s[..Newline(s) + 1])] + Items(AfterLine(s))
  {
  }

  lemma OnlyItem(s: Bytes)
    requires Newline(s) == |s|
    ensures Items(s) == (if s == [] then [] else [Judge(s)]) && AfterLine(s) == []
  {
  }

  /** `items` is `first` and then `rest`. */
  predicate Yields(items: seq<Item>, first: Item, rest: seq<Item>) {
    items != [] && items[0] == first && items[1..] == rest
  }

  /** A buffered complete line is the first item, and what follows it is the rest. */
  lemma DropLine(discarding: bool, buffer: Bytes, rest: Bytes)
    requires Newline(buffer) < |buffer|
    ensures var n := Newline(buffer);
      Yields(Remaining(discarding, buffer + rest), if discarding then Oversized else Judge(buffer[..n + 1]),
             Remaining(false, buffer[n + 1..] + rest))
  {
    NewlineStays(buffer, rest);
    SliceInFirst(buffer, rest, Newline(buffer) + 1);
    if !discarding {
      FirstItem(buffer + rest);
    }
  }

  lemma SkipPart(buffer: Bytes, rest: Bytes)
    requires Newline(buffer) == |buffer|
    ensures AfterLine(buffer + rest) == AfterLine(rest)
  {
    NewlineStays(buffer, rest);
    if Newline(rest) < |rest| {
      SliceInSecond(buffer, rest, |buffer| + Newline(rest) + 1);
    }
  }

  /** Bytes without a newline can be forgotten while discarding. */
  lemma StillDiscarding(buffer: Bytes, rest: Bytes)
    requires Newline(buffer) == |buffer|
    ensures Remaining(true, buffer + rest) == Remaining(true, [] + rest)
  {
    SkipPart(buffer, rest);
    assert [] + rest == rest;
  }

  /** A buffered part of a line that is already longer than the limit settles that line. */
  lemma StartDiscarding(buffer: Bytes, rest: Bytes)
    requires Newline(buffer) == |buffer| && FRAME_LIMIT < |buffer|
    ensures Remaining(false, buffer + rest) == Remaining(true, [] + rest)
  {
    SkipPart(buffer, rest);
    NewlineStays(buffer, rest);
    assert [] + rest == rest;
    if Newline(rest) < |rest| {
      FirstItem(buffer + rest);
    } else {
      OnlyItem(buffer + rest);
      OnlyItem([]);
    }
  }

  /** What the descriptor does when asked to write: accept some bytes, accept none for now, or fail. */
  datatype Acceptance = Wrote(count: nat) | WouldBlock | Closed

  datatype WriteEnd = Complete | Broken | Waiting

  /** The write loop sends the payload in order and without repetition; it ends normally only when
      every byte was accepted. */
  method WritePayload(payload: Bytes, descriptor: seq<Acceptance>) returns (r: WriteEnd, sent: Bytes)
    ensures sent <= payload
    ensures r == Complete <==> sent == payload
  {
    var remaining := payload;
    sent := [];
    var n := 0;
    while remaining != []
      invariant sent + remaining == payload
      invariant n <= |descriptor|
      decreases |descriptor| - n
    {
      if n == |descriptor| {
        return Waiting, sent;
      }
      var answer := descriptor[n];
      n := n + 1;
      if answer.WouldBlock? {
        continue;
      }
      if answer.Closed? || answer.count == 0 {
        return Broken, sent;
      }
      var written := if answer.count < |remaining| then answer.count else |remaining|;
      sent, remaining := sent + remaining[..written], remaining[written..];
    }
    r := Complete;
  }
}
