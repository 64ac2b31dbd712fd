/**
 The resumable line reader (irc_read, src/irc.c): it takes one byte at a time
 from a non-blocking socket into a fixed buffer, keeps its place when the
 socket would block, and hands out a line at LF or when the buffer is full.
 */
module LineReader {
  import opened Ascii

  const BUFFERSIZE := 1024
  /** The number of bytes after which a line is cut even without LF. */
  const FULL := BUFFERSIZE - 4

  /** What one call of recv for a single byte reports. */
  datatype Recv = Data(byte: char) | WouldBlock | Closed

  datatype Outcome = Line(text: CString) | Again | Gone

  predicate Complete(p: string) {
    p != [] && (p[|p| - 1] == '\n' || FULL <= |p|)
  }

  /** A line without its last byte, and without a CR before that. */
  function Chopped(p: string): string
    requires p != []
  {
    if 2 <= |p| && p[|p| - 2] == '\r' then p[..|p| - 2] else p[..|p| - 1]
  }

  /** What is left in the buffer, as a C string. */
  function Stripped(p: string): CString
    requires p != []
  {
    CText(Chopped(p))
  }

  /** The text before the reader's place holds no complete line. */
  predicate Pending(p: string) {
    |p| < FULL && '\n' !in p
  }

  /** One call: the outcome, the bytes kept, and the input left. */
  function Receive(p: string, input: seq<Recv>): (r: (Outcome, string, seq<Recv>))
    ensures input != [] ==> |r.2| < |input|
    decreases input
  {
    if input == [] then (Again, p, [])
    else match input[0]
      case Closed => (Gone, p, input[1..])
      case WouldBlock => (Again, p, input[1..])
      case Data(c) =>
        if Complete(p + [c]) then (Line(Stripped(p + [c])), [], input[1..])
        else Receive(p + [c], input[1..])
  }

  /** The lines got by calling again and again until the peer is gone or the
      input ends. */
  function ReadAll(p: string, input: seq<Recv>): seq<CString>
    decreases |input|
  {
    if input == [] then []
    else
      var (outcome, kept, rest) := Receive(p, input);
      match outcome
      case Line(text) => [text] + ReadAll(kept, rest)
      case Again => ReadAll(kept, rest)
      case Gone => []
  }

  class Connection {
    const buffer: array<char>
    var offset: nat

    ghost predicate Valid()
      reads this, buffer
    {
      buffer.Length == BUFFERSIZE && offset < FULL && Pending(buffer[..offset])
    }

    constructor ()
      ensures Valid() && offset == 0 && fresh(buffer)
    {
      buffer := new char[BUFFERSIZE];
      offset := 0;
    }

    method Read(input: seq<Recv>) returns (outcome: Outcome, rest: seq<Recv>)
      requires Valid()
      modifies this, buffer
      ensures Valid()
      ensures (outcome, buffer[..offset], rest) == Receive(old(buffer[..offset]), input)
    {
      rest := input;
      ghost var p := buffer[..offset];
      while true
        invariant Valid()
        invariant Receive(buffer[..offset], rest) == Receive(p, input)
        decreases |rest|
      {
        if rest == [] || rest[0] == WouldBlock {
          outcome, rest := Again, if rest == [] then [] else rest[1..];
          return;
        }
        if rest[0] == Closed {
          outcome, rest := Gone, rest[1..];
          return;
        }
        ghost var before := buffer[..offset];
        buffer[offset] := rest[0].byte;
        assert buffer[..offset + 1] == before + [rest[0].byte];
        rest := rest[1..];
        offset := offset + 1;
        if buffer[offset - 1] == '\n' || offset >= FULL {
          break;
        }
      }
      outcome := TakeLine();
    }

    /** The end of irc_read: terminators for the last byte and a CR before it. */
    method TakeLine() returns (outcome: Outcome)
      requires buffer.Length == BUFFERSIZE && 0 < offset <= FULL
      modifies this`offset
      ensures Valid() && offset == 0 && outcome == Line(Stripped(old(buffer[..offset])))
    {
      var line, n := buffer[..offset], offset - 1;
      if offset >= 2 && buffer[offset - 2] == '\r' {
        n := offset - 2;
      }
      assert line[..n] == Chopped(line);
      outcome := Line(CText(line[..n]));
      offset := 0;
    }
  }

  // ------------------------------------------------------------------
  // The one-shot reading of a whole byte string.

  /** The length of the first line, terminator included, or 0 if none is complete. */
  function LineLength(bytes: string, from: nat): (n: nat)
    requires from <= |bytes| && Pending(bytes[..from])
    ensures n == 0 ==> Pending(bytes)
    ensures n != 0 ==> from < n <= |bytes| && Complete(bytes[..n]) && Pending(bytes[..n - 1])
    decreases |bytes| - from
  {
    if from == |bytes| then
      assert bytes[..from] == bytes;
      0
    else if bytes[from] == '\n' || from + 1 == FULL then
      assert bytes[..from + 1][from] == bytes[from];
      from + 1
    else
      assert bytes[..from + 1] == bytes[..from] + [bytes[from]];
      LineLength(bytes, from + 1)
  }

  function Split(bytes: string): seq<CString>
    decreases |bytes|
  {
    var n := LineLength(bytes, 0);
    if n == 0 then [] else [Stripped(bytes[..n])] + Split(bytes[n..])
  }

  /** A line ends at one place only. */
  lemma LineLengthUnique(bytes: string, n: nat)
    requires 1 <= n <= |bytes| && Complete(bytes[..n]) && Pending(bytes[..n - 1])
    ensures LineLength(bytes, 0) == n
  {
    assert forall m, i | 0 <= i < m <= |bytes| :: bytes[..m][i] == bytes[i];
  }

  /** The bytes that arrive before the peer closes. */
  function Bytes(input: seq<Recv>): string {
    if input == [] || input[0] == Closed then []
    else (if input[0].Data? then [input[0].byte] else []) + Bytes(input[1..])
  }

  lemma {:induction false} ReceiveSplits(p: string, input: seq<Recv>)
    requires Pending(p)
    ensures var (outcome, kept, rest) := Receive(p, input);
            && Pending(kept)
            && (outcome.Line? ==> Split(p + Bytes(input)) == [outcome.text] + Split(kept + Bytes(rest)))
            && (outcome.Again? ==> p + Bytes(input) == kept + Bytes(rest))
            && (outcome.Gone? ==> p + Bytes(input) == kept)
    decreases input
  {
    if input != [] && input[0].Data? {
      var c := input[0].byte;
      var bytes := p + Bytes(input);
      assert bytes == (p + [c]) + Bytes(input[1..]);
      if Complete(p + [c]) {
        assert bytes[..|p| + 1] == p + [c] && bytes[..|p|] == p;
        LineLengthUnique(bytes, |p| + 1);
        assert bytes[|p| + 1..] == [] + Bytes(input[1..]);
      } else {
        ReceiveSplits(p + [c], input[1..]);
      }
    }
  }

  /** The lines read are the one-shot split of the bytes, whatever was pending
      and wherever a read would have blocked. */
  lemma {:induction false} ReadAllIsSplit(p: string, input: seq<Recv>)
    requires Pending(p)
    ensures ReadAll(p, input) == Split(p + Bytes(input))
    decreases |input|
  {
    if input == [] {
      assert p + [] == p;
      assert forall m, i | 0 <= i < m <= |p| :: p[..m][i] == p[i];
    } else {
      ReceiveSplits(p, input);
      var (outcome, kept, rest) := Receive(p, input);
      if outcome.Gone? {
        ReadAllIsSplit(kept, []);
        assert kept + [] == kept;
      } else {
        ReadAllIsSplit(kept, rest);
      }
    }
  }

  /** Two arrivals of the same bytes give the same lines. */
  lemma ChunkingIndependence(one: seq<Recv>, other: seq<Recv>)
    requires Bytes(one) == Bytes(other)
    ensures ReadAll([], one) == ReadAll([], other)
  {
    ReadAllIsSplit([], one);
    ReadAllIsSplit([], other);
    assert [] + Bytes(one) == Bytes(one);
  }

  // ------------------------------------------------------------------
  // Framing: messages ended by CR LF come back, exactly when they can.

  function Framed(messages: seq<string>): string {
    if messages == [] then [] else messages[0] + "\r\n" + Framed(messages[1..])
  }

  /** The message has no line end and no terminator, and fits the buffer. */
  predicate Frames(message: string) {
    '\n' !in message && '\0' !in message && |message| <= 1018
  }

  lemma FirstMessage(m: string, more: string)
    requires Frames(m)
    ensures Split(m + "\r\n" + more) == [m] + Split(more)
  {
    var bytes := m + "\r\n" + more;
    var n := |m| + 2;
    assert bytes[..n] == m + "\r\n" && bytes[..n - 1] == m + "\r" && bytes[n..] == more;
    LineLengthUnique(bytes, n);
  }

  function LineEnds(bytes: string): nat {
    if bytes == [] then 0 else (if bytes[0] == '\n' then 1 else 0) + LineEnds(bytes[1..])
  }

  lemma {:induction false} LineEndsAppend(a: string, b: string)
    ensures LineEnds(a + b) == LineEnds(a) + LineEnds(b)
  {
    if a == [] {
      assert a + b == b;
    } else {
      assert (a + b)[0] == a[0] && (a + b)[1..] == a[1..] + b;
      LineEndsAppend(a[1..], b);
    }
  }

  lemma {:induction false} NoLineEnds(bytes: string)
    requires '\n' !in bytes
    ensures LineEnds(bytes) == 0
  {
    if bytes != [] {
      NoLineEnds(bytes[1..]);
    }
  }

  lemma OneLineEnd(bytes: string, n: nat)
    requires 0 < n <= |bytes| && '\n' !in bytes[..n - 1]
    ensures LineEnds(bytes) <= 1 + LineEnds(bytes[n..])
  {
    var rest := bytes[n - 1..];
    NoLineEnds(bytes[..n - 1]);
    assert bytes == bytes[..n - 1] + rest && rest[1..] == bytes[n..];
    LineEndsAppend(bytes[..n - 1], rest);
  }

  /** Every line end ends a line. */
  lemma {:induction false} EnoughLines(bytes: string)
    ensures LineEnds(bytes) <= |Split(bytes)|
    decreases |bytes|
  {
    var n := LineLength(bytes, 0);
    if n == 0 {
      NoLineEnds(bytes);
    } else {
      EnoughLines(bytes[n..]);
      OneLineEnd(bytes, n);
    }
  }

  lemma {:induction false} OneLineEach(messages: seq<string>)
    ensures |messages| <= LineEnds(Framed(messages))
  {
    if messages != [] {
      OneLineEach(messages[1..]);
      LineEndsAppend(messages[0] + "\r\n", Framed(messages[1..]));
      LineEndsAppend(messages[0], "\r\n");
      assert LineEnds("\r\n") == 1 by {
        assert "\r\n"[1..] == "\n" && "\n"[1..] == [];
      }
    }
  }

  /** A message that does not frame is not the first line, or that line is not
      all there is of it. */
  lemma FirstIsOther(m: string, more: string)
    requires !Frames(m)
    ensures var bytes := m + "\r\n" + more;
            var n := LineLength(bytes, 0);
            n != 0 && (Stripped(bytes[..n]) != m || n == |m| + 1)
  {
    var bytes := m + "\r\n" + more;
    assert bytes[|m| + 1] == '\n' && bytes[..|m|] == m;
    var n := LineLength(bytes, 0);
    assert n != 0;
    LineIsNot(bytes, n, m);
  }

  /** Of a line that ends elsewhere than after the message and its CR LF, the text
      is not the message, if that does not frame; but it may end before the LF. */
  lemma LineIsNot(bytes: string, n: nat, m: string)
    requires 0 < n <= |bytes| && Complete(bytes[..n]) && Pending(bytes[..n - 1]) && !Frames(m)
    requires |m| + 1 < |bytes| && bytes[..|m|] == m && bytes[|m|] == '\r' && bytes[|m| + 1] == '\n'
    ensures Stripped(bytes[..n]) != m || n == |m| + 1
  {
    assert Stripped(bytes[..n]) <= bytes[..n - 1];
    assert forall j :: 0 <= j < n - 1 ==> bytes[..n - 1][j] == bytes[j];
  }

  lemma LineEndAgain(bytes: string, messages: seq<string>)
    requires bytes == "\n" + Framed(messages)
    ensures |messages| < |Split(bytes)|
  {
    LineEndsAppend("\n", Framed(messages));
    assert "\n"[1..] == [] && LineEnds("\n") == 1;
    OneLineEach(messages);
    EnoughLines(bytes);
  }

  lemma SplitFirst(bytes: string, n: nat)
    requires n == LineLength(bytes, 0) && n != 0
    ensures |Split(bytes)| == 1 + |Split(bytes[n..])| && Split(bytes)[0] == Stripped(bytes[..n])
  {
  }

  lemma AfterCarriageReturn(m: string, more: string)
    ensures (m + "\r\n" + more)[|m| + 1..] == "\n" + more
  {
  }

  lemma NotReadBack(m: string, messages: seq<string>)
    requires !Frames(m)
    ensures Split(m + "\r\n" + Framed(messages)) != [m] + messages
  {
    var bytes, all := m + "\r\n" + Framed(messages), [m] + messages;
    var n := LineLength(bytes, 0);
    FirstIsOther(m, Framed(messages));
    SplitFirst(bytes, n);
    if n == |m| + 1 {
      AfterCarriageReturn(m, Framed(messages));
      LineEndAgain(bytes[n..], messages);
      assert |Split(bytes)| > |all|;
    } else {
      assert Split(bytes)[0] != all[0];
    }
  }

  /** Messages each followed by CR LF are read back as they were if and only if
      each has no line end and no terminator and fits the buffer. */
  lemma {:induction false} FramingRoundTripIff(messages: seq<string>)
    ensures Split(Framed(messages)) == messages <==> forall m :: m in messages ==> Frames(m)
  {
    if messages != [] {
      var m, more := messages[0], Framed(messages[1..]);
      if Frames(m) {
        FirstMessage(m, more);
        FramingRoundTripIff(messages[1..]);
        assert messages == [m] + messages[1..];
      } else {
        NotReadBack(m, messages[1..]);
        assert messages == [m] + messages[1..];
      }
    }
  }

  /** In particular, one message. */
  lemma RoundTripIff(m: string)
    ensures Split(m + "\r\n") == [m] <==> Frames(m)
  {
    FramingRoundTripIff([m]);
    assert Framed([m]) == m + "\r\n" by {
      assert [m][1..] == [] && m + "\r\n" + [] == m + "\r\n";
    }
    assert forall x :: x in [m] ==> x == m;
    assert m in [m];
  }
}
