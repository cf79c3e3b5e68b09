/** The two transfers of the relay, each through a fresh zeroed buffer of
    `BUFFER_SIZE` characters: one line of standard input out as a datagram,
    and one datagram in to standard output. */
module Transfer {
  import opened CString
  import opened Os

  /** Size of the message buffer. */
  const BUFFER_SIZE: nat := 768

  /** The most characters either transfer moves at once. */
  const MAX_PAYLOAD: nat := BUFFER_SIZE - 1

  /** The characters one `fgets` call takes from the pending input when it
      may store `max` of them: up to and including the first newline. */
  function LineOf(input: seq<char>, max: nat): seq<char>
  {
    if max == 0 || input == [] then []
    else if input[0] == '\n' then [input[0]]
    else [input[0]] + LineOf(input[1..], max - 1)
  }

  /** The line is a prefix of the input of at most `max` characters, holds a
      newline only as its last character, and stops early only after one. */
  lemma {:induction false} LineShape(input: seq<char>, max: nat)
    ensures var line := LineOf(input, max);
      |line| <= max && |line| <= |input| && line == input[..|line|] &&
      (forall j :: 0 <= j < |line| - 1 ==> line[j] != '\n') &&
      (|line| < max && |line| < |input| ==> |line| > 0 && line[|line| - 1] == '\n') &&
      (max > 0 && input != [] ==> |line| > 0)
  {
    if max > 0 && input != [] && input[0] != '\n' {
      LineShape(input[1..], max - 1);
    }
  }

  lemma LineOfStep(s: seq<char>, i: nat, max: nat)
    requires i < max && i < |s|
    ensures s[..i + 1] == s[..i] + [s[i]]
    ensures s[..i] + LineOf(s[i..], max - i) ==
      if s[i] == '\n' then s[..i + 1] else s[..i + 1] + LineOf(s[i + 1..], max - (i + 1))
  {
    assert s[i..][0] == s[i] && s[i..][1..] == s[i + 1..];
  }

  /** `fgets(data, data.Length, stream)`; a failing stream gives a read error
      and consumes nothing. */
  method ReadLine(data: array<char>, stream: seq<char>, fails: bool) returns (r: ReadResult)
    requires data.Length >= 1
    modifies data
    ensures r == if fails then ReadError else if stream == [] then Eof else Got(LineOf(stream, data.Length - 1))
    ensures r.Got? ==> |r.line| < data.Length && data[|r.line|] == NUL
    ensures r.Got? ==> forall j :: 0 <= j < |r.line| ==> data[j] == r.line[j]
    ensures r.Got? ==> forall j :: |r.line| < j < data.Length ==> data[j] == old(data[j])
    ensures r.Eof? ==> data[..] == old(data[..])
  {
    if fails {
      return ReadError;
    }
    if stream == [] {
      return Eof;
    }
    var max := data.Length - 1;
    var i := 0;
    var done := false;
    while !done
      invariant i <= max && i <= |stream|
      invariant forall j :: 0 <= j < i ==> data[j] == stream[j]
      invariant forall j :: i <= j < data.Length ==> data[j] == old(data[j])
      invariant done ==> LineOf(stream, max) == stream[..i]
      invariant !done ==> LineOf(stream, max) == stream[..i] + LineOf(stream[i..], max - i)
      decreases !done, max - i
    {
      if i == max || i == |stream| {
        done := true;
      } else {
        LineOfStep(stream, i, max);
        data[i] := stream[i];
        i := i + 1;
        done := stream[i - 1] == '\n';
      }
    }
    data[i] := NUL;
    r := Got(stream[..i]);
  }

  /** The datagram `handle_outgoing` sends for the pending input: the line
      `fgets` reads, cut at its first NUL by `strlen`. */
  function Payload(input: seq<char>): seq<char>
  {
    Str(LineOf(input, MAX_PAYLOAD))
  }

  /** The payload is a prefix of the pending input of at most 767 characters,
      without NUL, with a newline at most as its last character; it is empty
      only when the input starts with NUL. */
  lemma PayloadShape(input: seq<char>)
    ensures var p := Payload(input);
      |p| <= MAX_PAYLOAD && |p| <= |input| && p == input[..|p|] && NUL !in p &&
      (forall j :: 0 <= j < |p| - 1 ==> p[j] != '\n') &&
      (input != [] && input[0] != NUL ==> |p| > 0)
  {
    LineShape(input, MAX_PAYLOAD);
    var line := LineOf(input, MAX_PAYLOAD);
    var p := Str(line);
    assert forall j :: 0 <= j < |p| ==> p[j] == line[j];
    if input != [] && input[0] != NUL {
      assert line[0] == input[0];
    }
  }

  /** What one call of `handle_outgoing` does: its result, the input left
      pending, and the calls it made. */
  datatype Outbound = Outbound(ok: bool, rest: seq<char>, calls: seq<Call>)

  function Outgoing(input: seq<char>, readFails: bool, send: SendResult, target: seq<char>): Outbound
  {
    if readFails then Outbound(true, input, [Fgets(BUFFER_SIZE, ReadError)])
    else if input == [] then Outbound(false, input, [Fgets(BUFFER_SIZE, Eof)])
    else
      var line := LineOf(input, MAX_PAYLOAD);
      LineShape(input, MAX_PAYLOAD);
      var p := Str(line);
      Outbound(send == SendCount(|p|), input[|line|..], [Fgets(BUFFER_SIZE, Got(line)), Sendto(p, target, send)])
  }

  /** `handle_outgoing`: end of input is a false return and sends nothing; a
      read error is a true return and sends nothing and consumes nothing;
      otherwise one line is consumed, its payload is sent, and the result is
      true exactly when `sendto` reports the whole payload sent. */
  lemma OutgoingResult(input: seq<char>, readFails: bool, send: SendResult, target: seq<char>)
    ensures var o := Outgoing(input, readFails, send, target);
      (readFails ==> o.ok && o.rest == input && o.calls == [Fgets(BUFFER_SIZE, ReadError)]) &&
      (!readFails && input == [] ==> !o.ok && o.calls == [Fgets(BUFFER_SIZE, Eof)]) &&
      (!readFails && input != [] ==>
         |o.calls| == 2 && o.calls[0] == Fgets(BUFFER_SIZE, Got(LineOf(input, MAX_PAYLOAD))) &&
         input == o.calls[0].read.line + o.rest && |o.rest| < |input| &&
         o.calls[1] == Sendto(Payload(input), target, send) &&
         (o.ok <==> send != SendError && send.count == |Payload(input)|))
  {
    if !readFails && input != [] {
      LineShape(input, MAX_PAYLOAD);
    }
  }

  /** `handle_outgoing` on its fixed buffer, proved to behave as `Outgoing`. */
  method HandleOutgoing(input: seq<char>, readFails: bool, send: SendResult, target: seq<char>)
    returns (ok: bool, rest: seq<char>, calls: seq<Call>)
    ensures Outbound(ok, rest, calls) == Outgoing(input, readFails, send, target)
  {
    var data := new char[BUFFER_SIZE](_ => NUL);
    var r := ReadLine(data, input, readFails);
    if r == ReadError {
      return true, input, [Fgets(BUFFER_SIZE, r)];
    }
    if r == Eof {
      return false, input, [Fgets(BUFFER_SIZE, r)];
    }
    assert r.line == LineOf(input, MAX_PAYLOAD);
    var len := Strlen(data);
    StrOfTerminated(data[..], r.line);
    var payload := data[..len];
    assert payload == Str(r.line);
    LineShape(input, MAX_PAYLOAD);
    rest := input[|r.line|..];
    calls := [Fgets(BUFFER_SIZE, r), Sendto(payload, target, send)];
    if send == SendError {
      return false, rest, calls;
    }
    if send.count != len {
      return false, rest, calls;
    }
    return true, rest, calls;
  }

  /** What one call of `handle_incoming` does: its result and the calls it made. */
  datatype Inbound = Inbound(ok: bool, calls: seq<Call>)

  function Incoming(answer: RecvResult): Inbound
  {
    match answer
    case RecvError => Inbound(false, [Recvfrom(MAX_PAYLOAD, RecvError)])
    case Datagram(d) =>
      var got := Clip(d, MAX_PAYLOAD);
      Inbound(true, [Recvfrom(MAX_PAYLOAD, Datagram(got)), Write(got), Write("\n")])
  }

  /** `recvfrom(sock, data, max, ...)` into an array: the number of characters
      stored, or -1. */
  method ReceiveDatagram(data: array<char>, max: nat, answer: RecvResult) returns (n: int)
    requires max <= data.Length
    modifies data
    ensures answer.RecvError? ==> n == -1
    ensures answer.Datagram? ==> n == |Clip(answer.bytes, max)| && data[..n] == Clip(answer.bytes, max)
    ensures answer.RecvError? ==> data[..] == old(data[..])
    ensures answer.Datagram? ==> data[n..] == old(data[n..])
  {
    if answer.RecvError? {
      return -1;
    }
    var got := Clip(answer.bytes, max);
    forall j | 0 <= j < |got| {
      data[j] := got[j];
    }
    n := |got|;
  }

  /** `handle_incoming`: asks for at most 767 characters; on an error it
      writes nothing and returns false; otherwise standard output receives
      exactly the characters received followed by one newline, and a datagram
      of at most 767 characters arrives whole. */
  lemma IncomingEcho(answer: RecvResult)
    ensures var i := Incoming(answer);
      (i.ok <==> answer.Datagram?) &&
      i.calls[0] == Recvfrom(MAX_PAYLOAD, i.calls[0].recv) &&
      (!i.ok ==> i.calls == [Recvfrom(MAX_PAYLOAD, RecvError)] && Stdout(i.calls) == []) &&
      (i.ok ==>
         i.calls[0].recv.Datagram? && |i.calls[0].recv.bytes| == Min(|answer.bytes|, MAX_PAYLOAD) &&
         i.calls[0].recv.bytes == answer.bytes[..|i.calls[0].recv.bytes|] &&
         Stdout(i.calls) == i.calls[0].recv.bytes + "\n") &&
      (i.ok && |answer.bytes| <= MAX_PAYLOAD ==> Stdout(i.calls) == answer.bytes + "\n")
  {
    var calls := Incoming(answer).calls;
    if answer.Datagram? {
      assert Stdout(calls[2..]) == "\n" by {
        assert calls[2..][1..] == [];
      }
    } else {
      assert calls[1..] == [];
    }
  }

  /** `handle_incoming` on its fixed buffer, proved to behave as `Incoming`. */
  method HandleIncoming(answer: RecvResult) returns (ok: bool, calls: seq<Call>)
    ensures Inbound(ok, calls) == Incoming(answer)
  {
    var data := new char[BUFFER_SIZE](_ => NUL);
    var n := ReceiveDatagram(data, BUFFER_SIZE - 1, answer);
    if n == -1 {
      return false, [Recvfrom(MAX_PAYLOAD, RecvError)];
    }
    var got := data[..n];
    ok, calls := true, [Recvfrom(MAX_PAYLOAD, Datagram(got)), Write(got), Write("\n")];
  }
}
