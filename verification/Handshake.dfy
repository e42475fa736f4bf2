/**
 The bounded line reader of bridge/internal/handshake/handshake.go and the hand-over of what it read
 too much of. Bytes are chars. How the ack line is parsed and how the deadline is enforced are not
 part of this model: a deadline shows as the stream failing.
 */
module Handshake {

  const MAX_LINE_BYTES := 4096

  /** What ends the stream: the host closed it, or reading failed (a deadline, a broken transport). */
  datatype StreamEnd = Closed | Failed

  datatype LineResult =
    | Line(bytes: string)
    | NoAck
    | ReadError
    | AckTooLong

  /** The first newline of s, or |s|. */
  function NewlineAt(s: string): (k: nat)
    ensures k <= |s|
    ensures forall i | 0 <= i < k :: s[i] != '\n'
    ensures k < |s| ==> s[k] == '\n'
  {
    if s == "" || s[0] == '\n' then 0 else 1 + NewlineAt(s[1..])
  }

  /** What reading one bounded line off a stream means, whatever the chunks it arrives in. */
  function LineOf(stream: string, end: StreamEnd): LineResult {
    var k := NewlineAt(stream);
    if k <= MAX_LINE_BYTES && k < |stream| then Line(stream[..k])
    else if |stream| > MAX_LINE_BYTES then AckTooLong
    else if end == Closed && stream == "" then NoAck
    else ReadError
  }

  /** bufio.Reader over a connection: bytes already fetched, and the stream still to come. */
  class BufReader {
    var buffered: string
    var unread: string
    const end: StreamEnd

    constructor (stream: string, end: StreamEnd)
      ensures buffered == "" && unread == stream && this.end == end
    {
      buffered := "";
      unread := stream;
      this.end := end;
    }

    /** Everything this side has not consumed yet. */
    function Rest(): string
      reads this
    {
      buffered + unread
    }

    /** One byte. An empty buffer is filled by one read of any size the transport chooses. */
    method ReadByte() returns (ok: bool, b: char)
      modifies this
      ensures ok == (old(Rest()) != "")
      ensures ok ==> [b] + Rest() == old(Rest())
      ensures !ok ==> Rest() == old(Rest())
    {
      b := '\0';
      if |buffered| == 0 {
        if |unread| == 0 {
          return false, b;
        }
        var n :| 1 <= n <= |unread| && n <= MAX_LINE_BYTES + 1;
        buffered, unread := unread[..n], unread[n..];
      }
      b := buffered[0];
      buffered := buffered[1..];
      ok := true;
    }

    method ReadBoundedLine() returns (result: LineResult)
      modifies this
      ensures result == LineOf(old(Rest()), end)
      ensures result.Line? ==> result.bytes + "\n" + Rest() == old(Rest())
    {
      var line := "";
      while true
        invariant |line| <= MAX_LINE_BYTES
        invariant '\n' !in line
        invariant line + Rest() == old(Rest())
        decreases MAX_LINE_BYTES - |line|
      {
        ghost var before := Rest();
        var ok, b := ReadByte();
        if !ok {
          assert line == old(Rest());
          if end == Closed && |line| == 0 {
            return NoAck;
          }
          return ReadError;
        }
        assert before[0] == b;
        assert line + before == line + [b] + Rest();
        if b == '\n' {
          LineEnds(old(Rest()), line, Rest());
          return Line(line);
        }
        line := line + [b];
        if |line| > MAX_LINE_BYTES {
          return AckTooLong;
        }
      }
    }

    /** The bytes fetched beyond the ack newline, handed to the relay as its prefix. */
    method BufferedRemainder() returns (rest: string)
      modifies this
      ensures rest + unread == old(Rest()) && buffered == "" && unread == old(unread)
    {
      rest := buffered;
      buffered := "";
    }
  }

  lemma LineEnds(stream: string, line: string, rest: string)
    requires stream == line + ['\n'] + rest && '\n' !in line
    ensures NewlineAt(stream) == |line| && stream[..|line|] == line
    ensures line + "\n" + rest == stream
  {
    assert stream[|line|] == '\n';
    assert forall i | 0 <= i < |line| :: stream[i] == line[i];
  }

  /** A line of at most 4096 bytes, ended by the stream's first newline. */
  ghost predicate StartsWithLine(stream: string, line: string) {
    '\n' !in line && |line| <= 4096 && line + "\n" <= stream
  }

  /**
   What each result says of the stream: its first line; more than 4096 bytes of none; a host that closed without a
   byte; or an end that came first.
   */
  lemma ResultsKeptApart(stream: string, end: StreamEnd)
    ensures forall line :: LineOf(stream, end) == Line(line) <==> StartsWithLine(stream, line)
    ensures LineOf(stream, end) == AckTooLong <==> |stream| > 4096 && '\n' !in stream[..4097]
    ensures LineOf(stream, end) == NoAck <==> stream == "" && end == Closed
    ensures LineOf(stream, end) == ReadError
       <==> '\n' !in stream && |stream| <= 4096 && !(stream == "" && end == Closed)
  {
    var k := NewlineAt(stream);
    forall line
      ensures LineOf(stream, end) == Line(line) <==> StartsWithLine(stream, line)
    {
      if StartsWithLine(stream, line) {
        assert stream == line + ['\n'] + stream[|line| + 1..];
        LineEnds(stream, line, stream[|line| + 1..]);
      } else if k < |stream| && line == stream[..k] {
        assert stream[..k + 1] == line + "\n";
      }
    }
    assert k < |stream| ==> '\n' in stream;
    assert k <= 4096 && k < |stream| && |stream| > 4096 ==> stream[..4097][k] == '\n';
  }

  /**
   The whole hand-over, for every way the host's bytes are chunked: after the ack line was accepted,
   the prefix given to the relay followed by what the connection will still deliver is exactly what
   the host wrote after the ack's newline.
   */
  method AckAndHandOver(stream: string, end: StreamEnd) returns (result: LineResult, prefix: string, onWire: string)
    ensures result == LineOf(stream, end)
    ensures result.Line? ==> result.bytes + "\n" + (prefix + onWire) == stream
    ensures result.Line? ==> '\n' !in result.bytes && |result.bytes| <= MAX_LINE_BYTES
  {
    var reader := new BufReader(stream, end);
    assert reader.Rest() == stream;
    result := reader.ReadBoundedLine();
    if !result.Line? {
      return result, "", reader.unread;
    }
    assert forall i | 0 <= i < |result.bytes| :: result.bytes[i] == stream[i];
    prefix := reader.BufferedRemainder();
    onWire := reader.unread;
  }
}
