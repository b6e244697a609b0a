/**
 Byte streams from an agent process: newline framing on standard output and the
 bounded diagnostic buffer on standard error. The process is a sequence of chunks
 of any size; a timeout may strike before any read.
 */
module AgentStreams {
  import opened Common

  const NEWLINE: byte := '\n' as int

  /** The lines completed by the newlines of a stream. */
  function Lines(stream: Bytes): seq<Bytes> {
    if NEWLINE !in stream then []
    else
      var n := IndexOf(stream);
      [stream[..n]] + Lines(stream[n + 1..])
  }

  /** Where the first newline is, in a buffer that has one. */
  function IndexOf(s: Bytes): (n: nat)
    requires NEWLINE in s
    ensures n < |s| && s[n] == NEWLINE && NEWLINE !in s[..n]
  {
    if s[0] == NEWLINE then 0
    else
      assert s == [s[0]] + s[1..];
      var n := IndexOf(s[1..]) + 1;
      assert s[..n] == [s[0]] + s[1..][..n - 1];
      n
  }

  /** Consumed lines, each with its newline, back to back. */
  function Framed(lines: seq<Bytes>): Bytes {
    if lines == [] then [] else Framed(lines[..|lines| - 1]) + lines[|lines| - 1] + [NEWLINE]
  }

  predicate Unbroken(lines: seq<Bytes>) {
    forall i :: 0 <= i < |lines| ==> NEWLINE !in lines[i]
  }

  lemma {:induction false} IndexOfFirst(line: Bytes, rest: Bytes)
    requires NEWLINE !in line
    ensures NEWLINE in line + [NEWLINE] + rest && IndexOf(line + [NEWLINE] + rest) == |line|
  {
    var s := line + [NEWLINE] + rest;
    assert s[|line|] == NEWLINE;
    if line != [] {
      IndexOfFirst(line[1..], rest);
      assert s[1..] == line[1..] + [NEWLINE] + rest && s[0] == line[0];
    }
  }

  lemma LinesFront(first: Bytes, tail: Bytes)
    requires NEWLINE !in first
    ensures Lines(first + [NEWLINE] + tail) == [first] + Lines(tail)
  {
    IndexOfFirst(first, tail);
    assert (first + [NEWLINE] + tail)[..|first|] == first && (first + [NEWLINE] + tail)[|first| + 1..] == tail;
  }

  lemma {:induction false} FramedFront(first: Bytes, lines: seq<Bytes>)
    ensures Framed([first] + lines) == first + [NEWLINE] + Framed(lines)
  {
    var all := [first] + lines;
    if lines == [] {
      assert all[..0] == [];
    } else {
      var n := |lines| - 1;
      FramedFront(first, lines[..n]);
      assert all[..|all| - 1] == [first] + lines[..n];
    }
  }

  /** Unbroken lines are recovered from the stream they were framed into, whatever follows. */
  lemma {:induction false} LinesOfFramed(lines: seq<Bytes>, rest: Bytes)
    requires Unbroken(lines)
    ensures Lines(Framed(lines) + rest) == lines + Lines(rest)
  {
    hide Lines;
    if lines == [] {
      assert Framed(lines) + rest == rest;
    } else {
      var first, others := lines[0], lines[1..];
      FramedFront(first, others);
      LinesOfFramed(others, rest);
      LinesFront(first, Framed(others) + rest);
      assert lines == [first] + others;
      assert Framed(lines) + rest == first + [NEWLINE] + (Framed(others) + rest);
    }
  }

  lemma {:induction false} FramedLength(lines: seq<Bytes>)
    ensures |Framed(lines)| == TotalLength(lines) + |lines|
  {
    if lines != [] {
      FramedLength(lines[..|lines| - 1]);
    }
  }

  function TotalLength(lines: seq<Bytes>): nat {
    if lines == [] then 0 else TotalLength(lines[..|lines| - 1]) + |lines[|lines| - 1]|
  }

  /** What one wait for output can bring; an empty chunk is end of file. */
  datatype Event = Chunk(bytes: Bytes) | Deadline | Exited

  datatype Reply = Line(raw: Bytes) | TimedOut | Crashed | TooLong | Pending

  predicate Arrives(event: Event) {
    event.Chunk? && event.bytes != []
  }

  /**
   What a reply says: nothing was read that was not needed, and each refusal has
   its own cause, in the last event used.
   */
  ghost predicate Answers(before: Bytes, events: seq<Event>, used: nat, max: nat, reply: Reply, after: Bytes)
    requires used <= |events|
  {
    var got := before + Received(events[..used]);
    && (used > 0 ==> NEWLINE !in before + Received(events[..used - 1]))
    && (forall k :: 0 <= k < used - 1 ==> Arrives(events[k]))
    && match reply
       case Line(raw) => raw + [10] + after == got && 10 !in raw && (used > 0 ==> Arrives(events[used - 1]) && |got| <= max)
       case TooLong => after == got && used > 0 && Arrives(events[used - 1]) && |got| > max
       case TimedOut => after == got && used > 0 && events[used - 1].Deadline?
       case Crashed => after == got && used > 0 && (events[used - 1].Exited? || events[used - 1] == Chunk([]))
       case Pending => after == got && used == |events| && NEWLINE !in got
  }

  /** The buffer after a number of events that each brought some bytes but, but for the last, no newline. */
  ghost predicate Filled(before: Bytes, events: seq<Event>, used: nat, max: nat, buffer: Bytes)
    requires used <= |events|
  {
    && buffer == before + Received(events[..used])
    && (used > 0 ==> NEWLINE !in before + Received(events[..used - 1]) && |buffer| <= max)
    && (forall k :: 0 <= k < used ==> Arrives(events[k]))
  }

  lemma NothingFilled(before: Bytes, events: seq<Event>, max: nat)
    ensures Filled(before, events, 0, max, before)
  {
    assert events[..0] == [];
  }

  lemma FilledAnswers(before: Bytes, events: seq<Event>, used: nat, max: nat, buffer: Bytes, raw: Bytes, rest: Bytes)
    requires used <= |events| && Filled(before, events, used, max, buffer)
    ensures raw + [NEWLINE] + rest == buffer && NEWLINE !in raw ==> Answers(before, events, used, max, Line(raw), rest)
    ensures NEWLINE !in buffer && used == |events| ==> Answers(before, events, used, max, Pending, buffer)
  {
  }

  lemma FillOne(before: Bytes, events: seq<Event>, used: nat, max: nat, buffer: Bytes)
    requires used < |events| && Filled(before, events, used, max, buffer) && NEWLINE !in buffer
    ensures events[used].Chunk? && events[used].bytes != [] ==>
      var grown := buffer + events[used].bytes;
      if |grown| <= max then Filled(before, events, used + 1, max, grown)
      else Answers(before, events, used + 1, max, TooLong, grown)
    ensures events[used].Deadline? ==> Answers(before, events, used + 1, max, TimedOut, buffer)
    ensures events[used].Exited? || events[used] == Chunk([]) ==> Answers(before, events, used + 1, max, Crashed, buffer)
  {
    hide Received;
    ReceivedStep(events, used);
    var got := Received(events[..used]);
    assert got + [] == got;
    if events[used].Chunk? {
      assert before + (got + events[used].bytes) == (before + got) + events[used].bytes;
    }
  }

  class AgentProcess {
    var stdoutBuffer: Bytes
    var stderrBuffer: Bytes
    var stderrTruncated: bool
    const maxMessageBytes: nat
    const stderrBytes: nat
    ghost var read: Bytes             // everything read from stdout so far
    ghost var consumed: seq<Bytes>    // every raw line taken from it
    ghost var diagnostics: Bytes      // everything read from stderr so far

    constructor (maxMessageBytes: nat, stderrBytes: nat)
      ensures Valid() && read == [] && consumed == [] && diagnostics == []
      ensures this.maxMessageBytes == maxMessageBytes && this.stderrBytes == stderrBytes
    {
      this.maxMessageBytes, this.stderrBytes := maxMessageBytes, stderrBytes;
      stdoutBuffer, stderrBuffer, stderrTruncated := [], [], false;
      read, consumed, diagnostics := [], [], [];
    }

    ghost predicate Valid()
      reads this
    {
      && Unbroken(consumed) && read == Framed(consumed) + stdoutBuffer
      && stderrBuffer == Front(diagnostics, stderrBytes) && (stderrTruncated <==> |diagnostics| > stderrBytes)
    }

    /** Takes the next complete line, reading chunks until there is one or something goes wrong. */
    method ReadMessage(events: seq<Event>) returns (reply: Reply, used: nat)
      requires Valid()
      modifies this`stdoutBuffer, this`read, this`consumed
      ensures Valid() && used <= |events|
      ensures consumed == old(consumed) + if reply.Line? then [reply.raw] else []
      ensures reply.Line? ==> NEWLINE !in reply.raw
      ensures |old(stdoutBuffer)| <= maxMessageBytes && !reply.TooLong? ==> |stdoutBuffer| <= maxMessageBytes
      ensures read == old(read) + Received(events[..used])
      ensures Answers(old(stdoutBuffer), events, used, maxMessageBytes, reply, stdoutBuffer)
    {
      hide Framed, Received, Answers, Filled, Front;
      used := 0;
      NothingFilled(stdoutBuffer, events, maxMessageBytes);
      NothingReceived(events);
      while true
        invariant Valid() && used <= |events| && consumed == old(consumed)
        invariant |old(stdoutBuffer)| <= maxMessageBytes ==> |stdoutBuffer| <= maxMessageBytes
        invariant read == old(read) + Received(events[..used])
        invariant Filled(old(stdoutBuffer), events, used, maxMessageBytes, stdoutBuffer)
        decreases |events| - used
      {
        if NEWLINE in stdoutBuffer {
          var newline := IndexOf(stdoutBuffer);
          var raw := stdoutBuffer[..newline];
          TakeLine(consumed, stdoutBuffer, newline);
          FilledAnswers(old(stdoutBuffer), events, used, maxMessageBytes, stdoutBuffer, raw, stdoutBuffer[newline + 1..]);
          consumed := consumed + [raw];
          stdoutBuffer := stdoutBuffer[newline + 1..];
          return Line(raw), used;
        }
        if used == |events| {
          FilledAnswers(old(stdoutBuffer), events, used, maxMessageBytes, stdoutBuffer, [], []);
          return Pending, used;
        }
        var event := events[used];
        FillOne(old(stdoutBuffer), events, used, maxMessageBytes, stdoutBuffer);
        ReceivedStep(events, used);
        used := used + 1;
        match event {
          case Deadline => return TimedOut, used;
          case Exited => return Crashed, used;
          case Chunk(bytes) =>
            if bytes == [] {
              return Crashed, used;
            }
            assert Framed(consumed) + (stdoutBuffer + bytes) == (Framed(consumed) + stdoutBuffer) + bytes;
            stdoutBuffer := stdoutBuffer + bytes;
            read := read + bytes;
            if |stdoutBuffer| > maxMessageBytes {
              return TooLong, used;
            }
        }
      }
    }

    /** Drains standard error, keeping only the configured number of bytes. */
    method CollectStderr(chunks: seq<Bytes>)
      requires Valid()
      modifies this`stderrBuffer, this`stderrTruncated, this`diagnostics
      ensures Valid()
      ensures diagnostics == old(diagnostics) + Joined(UntilEmpty(chunks))
    {
      hide Framed, UntilEmpty, Joined;
      NothingJoined(chunks);
      for i := 0 to |chunks|
        invariant Valid() && UntilEmpty(chunks[..i]) == chunks[..i]
        invariant diagnostics == old(diagnostics) + Joined(chunks[..i])
      {
        var chunk := chunks[i];
        UntilEmptyStep(chunks, i);
        if chunk == [] {
          return;
        }
        var remaining := stderrBytes - |stderrBuffer|;
        FrontStep(diagnostics, chunk, stderrBytes);
        if remaining > 0 {
          stderrBuffer := stderrBuffer + chunk[..if |chunk| < remaining then |chunk| else remaining];
        }
        if |chunk| > if remaining > 0 then remaining else 0 {
          stderrTruncated := true;
        }
        JoinedStep(chunks, i);
        diagnostics := diagnostics + chunk;
      }
      assert chunks[..|chunks|] == chunks;
    }
  }

  function Front(s: Bytes, n: nat): Bytes {
    s[..if |s| < n then |s| else n]
  }

  lemma FrontStep(s: Bytes, chunk: Bytes, n: nat)
    ensures var room := n - |Front(s, n)|;
      Front(s + chunk, n) == Front(s, n) + if room > 0 then Front(chunk, room) else []
  {
  }

  function Joined(chunks: seq<Bytes>): Bytes {
    if chunks == [] then [] else Joined(chunks[..|chunks| - 1]) + chunks[|chunks| - 1]
  }

  lemma NothingJoined(chunks: seq<Bytes>)
    ensures Joined(chunks[..0]) == [] && UntilEmpty(chunks[..0]) == chunks[..0]
  {
  }

  lemma JoinedStep(chunks: seq<Bytes>, i: nat)
    requires i < |chunks|
    ensures Joined(chunks[..i + 1]) == Joined(chunks[..i]) + chunks[i]
  {
    assert chunks[..i + 1][..i] == chunks[..i];
  }

  function UntilEmpty(chunks: seq<Bytes>): seq<Bytes> {
    if chunks == [] || chunks[0] == [] then [] else [chunks[0]] + UntilEmpty(chunks[1..])
  }

  lemma {:induction false} UntilEmptyStep(chunks: seq<Bytes>, i: nat)
    requires i < |chunks| && UntilEmpty(chunks[..i]) == chunks[..i]
    ensures chunks[i] == [] ==> UntilEmpty(chunks) == chunks[..i]
    ensures chunks[i] != [] ==> UntilEmpty(chunks[..i + 1]) == chunks[..i + 1]
    decreases i
  {
    if i > 0 {
      assert chunks[..i][1..] == chunks[1..][..i - 1];
      assert chunks[..i][0] == chunks[0];
      assert UntilEmpty(chunks[..i])[1..] == chunks[1..][..i - 1];
      UntilEmptyStep(chunks[1..], i - 1);
      assert chunks[..i + 1][1..] == chunks[1..][..i];
      assert chunks[..i + 1] == [chunks[0]] + chunks[1..][..i];
    }
  }

  function Received(events: seq<Event>): Bytes {
    if events == [] then []
    else
      var last := events[|events| - 1];
      Received(events[..|events| - 1]) + if last.Chunk? then last.bytes else []
  }

  lemma NothingReceived(events: seq<Event>)
    ensures Received(events[..0]) == []
  {
  }

  lemma ReceivedStep(events: seq<Event>, i: nat)
    requires i < |events|
    ensures Received(events[..i + 1]) == Received(events[..i]) + if events[i].Chunk? then events[i].bytes else []
  {
    assert events[..i + 1][..i] == events[..i];
  }

  lemma TakeLine(consumed: seq<Bytes>, buffer: Bytes, newline: nat)
    requires newline < |buffer| && buffer[newline] == NEWLINE
    ensures buffer[..newline] + [NEWLINE] + buffer[newline + 1..] == buffer
    ensures Framed(consumed + [buffer[..newline]]) + buffer[newline + 1..] == Framed(consumed) + buffer
  {
    var raw := buffer[..newline];
    assert (consumed + [raw])[..|consumed|] == consumed;
    assert buffer == raw + [NEWLINE] + buffer[newline + 1..];
  }

  /**
   In every state of the process, whatever the chunking: the lines taken are a
   prefix of the stream's lines, and every byte read is in a line, a newline or
   the buffer.
   */
  lemma ConsumedIsPrefix(consumed: seq<Bytes>, buffer: Bytes, read: Bytes)
    requires Unbroken(consumed) && read == Framed(consumed) + buffer
    ensures consumed <= Lines(read) && Lines(read) == consumed + Lines(buffer)
    ensures |read| == TotalLength(consumed) + |consumed| + |buffer|
  {
    hide Lines, Framed, TotalLength;
    LinesOfFramed(consumed, buffer);
    FramedLength(consumed);
  }
}
